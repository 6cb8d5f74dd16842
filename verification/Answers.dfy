/** How the authorizer's own checks relate to the kinds of checks (authorizer.go, datalog/datalog.go):
    the authorizer asks the queries of a check and never looks at its kind. */
module Answers {
  import opened Wrappers
  import opened Types
  import opened Matching
  import opened Datalog
  import opened StackMachine
  import opened Expressions
  import opened Scopes
  import opened Checks
  import opened Authorization

  /** Every variable of the head occurs in the body, so that a match always gives a fact. */
  predicate HeadBound(query: DRule) { TermVariables(query.head.terms) <= Variables(query.body) }

  /** No query of a check errs over the facts the authorizer sees. */
  ghost predicate Sound(eval: Eval, queries: seq<DRule>, scopes: seq<Scope>, registry: Registry, facts: set<DFact>) {
    forall q :: q in queries ==> HeadBound(q) && ErrorFree(eval, q, Seen(q, scopes, AUTHORIZER, registry, facts))
  }

  /** A sound query of the authorizer never errs, and finds something exactly when `check if` holds of it. */
  lemma QueryAnswers(eval: Eval, query: DRule, block: BlockId, facts: set<DFact>)
    requires HeadBound(query) && ErrorFree(eval, query, facts)
    ensures !Errs(eval, query, block, facts)
    ensures Derived(eval, query, block, facts) != {} <==> QueryMeaning(CheckOne, eval, query, facts)
  {
    forall fs | fs in Tuples(facts, |query.body|) && |fs| == |query.body| && Unify(query.body, FactsOf(fs)).Some?
      ensures var m := Unify(query.body, FactsOf(fs)).value;
              && Matched(query, facts, m)
              && var y := Fire(eval, query, block, fs);
              && !y.Error? && (y.Yields? <==> AllTrue(eval, query.expressions, m))
    {
      FiringMeans(eval, query, block, facts, fs);
    }
    hide Fire, Unify, AllTrue, NoError;
    if QueryMeaning(CheckOne, eval, query, facts) {
      var m :| Matched(query, facts, m) && AllTrue(eval, query.expressions, m);
      var fs :| fs in Tuples(facts, |query.body|) && |fs| == |query.body| && Unify(query.body, FactsOf(fs)) == Some(m);
      assert Fire(eval, query, block, fs).fact in Derived(eval, query, block, facts);
    }
    forall fs | fs in Tuples(facts, |query.body|) && |fs| == |query.body|
      ensures !Fire(eval, query, block, fs).Error?
      ensures Unify(query.body, FactsOf(fs)).None? ==> !Fire(eval, query, block, fs).Yields?
    {
      NoMatchIsSilent(eval, query, block, fs);
    }
  }

  lemma NoMatchIsSilent(eval: Eval, query: DRule, block: BlockId, fs: seq<DFact>)
    requires |fs| == |query.body|
    ensures Unify(query.body, FactsOf(fs)).None? ==> Fire(eval, query, block, fs).Silent?
  {
    hide Unify;
  }

  lemma FiringMeans(eval: Eval, query: DRule, block: BlockId, facts: set<DFact>, fs: seq<DFact>)
    requires HeadBound(query) && ErrorFree(eval, query, facts)
    requires fs in Tuples(facts, |query.body|) && |fs| == |query.body| && Unify(query.body, FactsOf(fs)).Some?
    ensures var m := Unify(query.body, FactsOf(fs)).value;
            && Matched(query, facts, m)
            && var y := Fire(eval, query, block, fs);
            && !y.Error? && (y.Yields? <==> AllTrue(eval, query.expressions, m))
  {
    var m := Unify(query.body, FactsOf(fs)).value;
    assert Matched(query, facts, m);
    UnifyExact(query.body, FactsOf(fs), m);
    JudgeMeans(eval, query.expressions, m);
    forall i | 0 <= i < |query.head.terms| && query.head.terms[i].Variable?
      ensures query.head.terms[i].v in m
    {
      assert query.head.terms[i].v in TermVariables(query.head.terms);
      assert query.head.terms[i].v in m.Keys;
    }
    hide Unify, AllTrue, NoError, Judge, Tuples;
  }

  /** Without errors the authorizer finds a check to pass exactly when `check if` holds of its queries:
      it agrees with a check of kind One, always. */
  lemma {:induction false} AnswerIsOne(eval: Eval, queries: seq<DRule>, scopes: seq<Scope>, registry: Registry,
                                       facts: set<DFact>)
    requires Sound(eval, queries, scopes, registry, facts)
    ensures Answer(eval, queries, scopes, registry, facts)
            == Some(CheckMeaning(CheckOne, eval, queries, scopes, AUTHORIZER, registry, facts))
    decreases |queries|
  {
    hide Seen, Errs, Derived, QueryMeaning, ErrorFree;
    if queries != [] {
      var q := queries[0];
      assert q in queries;
      QueryAnswers(eval, q, AUTHORIZER, Seen(q, scopes, AUTHORIZER, registry, facts));
      AnswerIsOne(eval, queries[1..], scopes, registry, facts);
      if CheckMeaning(CheckOne, eval, queries[1..], scopes, AUTHORIZER, registry, facts) {
        var i :| 0 <= i < |queries[1..]|
                 && QueryMeaning(CheckOne, eval, queries[1..][i],
                                 Seen(queries[1..][i], scopes, AUTHORIZER, registry, facts));
        assert queries[i + 1] == queries[1..][i];
      }
      assert forall i :: 0 < i < |queries| ==> queries[i] == queries[1..][i - 1];
    }
  }

  // ---- When the authorizer agrees with the other kinds ----

  /** Some query has a match on which one of its expressions is true. */
  ghost predicate SomethingTrue(eval: Eval, queries: seq<DRule>, scopes: seq<Scope>, registry: Registry,
                                facts: set<DFact>) {
    exists q :: q in queries && FindsTrue(eval, q, Seen(q, scopes, AUTHORIZER, registry, facts))
  }

  /** Some query without expressions has a match. */
  ghost predicate BareMatch(queries: seq<DRule>, scopes: seq<Scope>, registry: Registry, facts: set<DFact>) {
    exists q :: q in queries && q.expressions == [] && HasMatch(q, Seen(q, scopes, AUTHORIZER, registry, facts))
  }

  /** Some query has no match, or a match on which some of its expressions are not true. */
  ghost predicate SomethingOpen(eval: Eval, queries: seq<DRule>, scopes: seq<Scope>, registry: Registry,
                                facts: set<DFact>) {
    exists q :: q in queries && LeavesOpen(eval, q, Seen(q, scopes, AUTHORIZER, registry, facts))
  }

  ghost predicate LeavesOpen(eval: Eval, query: DRule, facts: set<DFact>) {
    !HasMatch(query, facts) || exists m :: Matched(query, facts, m) && !AllTrue(eval, query.expressions, m)
  }

  lemma KindsInTurn(eval: Eval, queries: seq<DRule>, scopes: seq<Scope>, registry: Registry, facts: set<DFact>)
    ensures CheckMeaning(CheckReject, eval, queries, scopes, AUTHORIZER, registry, facts)
            <==> !SomethingTrue(eval, queries, scopes, registry, facts)
    ensures CheckMeaning(CheckAll, eval, queries, scopes, AUTHORIZER, registry, facts)
            <==> !SomethingOpen(eval, queries, scopes, registry, facts)
  {
    hide Seen, Matched, AllTrue, SomeTrue;
    forall q: DRule, visible: set<DFact>
      ensures QueryMeaning(CheckReject, eval, q, visible) <==> !FindsTrue(eval, q, visible)
      ensures QueryMeaning(CheckAll, eval, q, visible) <==> !LeavesOpen(eval, q, visible)
    {
    }
    hide QueryMeaning, FindsTrue, LeavesOpen;
    assert forall i :: 0 <= i < |queries| ==> queries[i] in queries;
    if !CheckMeaning(CheckReject, eval, queries, scopes, AUTHORIZER, registry, facts) {
      var i :| 0 <= i < |queries|
               && !QueryMeaning(CheckReject, eval, queries[i], Seen(queries[i], scopes, AUTHORIZER, registry, facts));
      assert queries[i] in queries;
      assert FindsTrue(eval, queries[i], Seen(queries[i], scopes, AUTHORIZER, registry, facts));
    }
    if !CheckMeaning(CheckAll, eval, queries, scopes, AUTHORIZER, registry, facts) {
      var i :| 0 <= i < |queries|
               && !QueryMeaning(CheckAll, eval, queries[i], Seen(queries[i], scopes, AUTHORIZER, registry, facts));
      assert queries[i] in queries;
      assert LeavesOpen(eval, queries[i], Seen(queries[i], scopes, AUTHORIZER, registry, facts));
    }
  }

  /** What the authorizer finds of a check, against what its kind means. */
  ghost predicate Agrees(kind: CheckKind, eval: Eval, queries: seq<DRule>, scopes: seq<Scope>, registry: Registry,
                         facts: set<DFact>)
  {
    Answer(eval, queries, scopes, registry, facts) == Some(true)
    <==> CheckMeaning(kind, eval, queries, scopes, AUTHORIZER, registry, facts)
  }

  /** A `check all` of the authorizer is decided as its kind means exactly when it has a query and either
      nothing is left open or no query has a match with all its expressions true. */
  lemma AllAgreesIff(eval: Eval, queries: seq<DRule>, scopes: seq<Scope>, registry: Registry, facts: set<DFact>)
    requires Sound(eval, queries, scopes, registry, facts)
    ensures Agrees(CheckAll, eval, queries, scopes, registry, facts)
            <==> queries != [] && (SomethingOpen(eval, queries, scopes, registry, facts) ==>
                                     !CheckMeaning(CheckOne, eval, queries, scopes, AUTHORIZER, registry, facts))
  {
    AnswerIsOne(eval, queries, scopes, registry, facts);
    KindsInTurn(eval, queries, scopes, registry, facts);
    hide Seen, Matched, AllTrue;
    if queries != [] && !SomethingOpen(eval, queries, scopes, registry, facts) {
      var visible := Seen(queries[0], scopes, AUTHORIZER, registry, facts);
      assert queries[0] in queries && !LeavesOpen(eval, queries[0], visible);
      var m :| Matched(queries[0], visible, m);
      assert AllTrue(eval, queries[0].expressions, m);
      assert QueryMeaning(CheckOne, eval, queries[0], visible);
    }
  }

  /** A `reject if` of the authorizer is decided as its kind means only in two corners: nothing is true
      and a query without expressions has a match, or something is true on a match, but no match has
      all its expressions true. */
  lemma RejectAgreesIff(eval: Eval, queries: seq<DRule>, scopes: seq<Scope>, registry: Registry, facts: set<DFact>)
    requires Sound(eval, queries, scopes, registry, facts)
    ensures Agrees(CheckReject, eval, queries, scopes, registry, facts)
            <==> if SomethingTrue(eval, queries, scopes, registry, facts)
                 then !CheckMeaning(CheckOne, eval, queries, scopes, AUTHORIZER, registry, facts)
                 else BareMatch(queries, scopes, registry, facts)
  {
    AnswerIsOne(eval, queries, scopes, registry, facts);
    KindsInTurn(eval, queries, scopes, registry, facts);
    if !SomethingTrue(eval, queries, scopes, registry, facts) {
      BareOrNone(eval, queries, scopes, registry, facts);
    }
  }

  lemma AllOrNothingTrue(eval: Eval, exprs: seq<Expression<string>>, m: Bindings<string>)
    requires AllTrue(eval, exprs, m)
    ensures exprs == [] || SomeTrue(eval, exprs, m)
  {
    if exprs != [] {
      assert exprs[0] in exprs;
    }
  }

  lemma BareOrNone(eval: Eval, queries: seq<DRule>, scopes: seq<Scope>, registry: Registry, facts: set<DFact>)
    requires !SomethingTrue(eval, queries, scopes, registry, facts)
    ensures CheckMeaning(CheckOne, eval, queries, scopes, AUTHORIZER, registry, facts)
            <==> BareMatch(queries, scopes, registry, facts)
  {
    hide Seen, Matched;
    if i :| 0 <= i < |queries|
            && QueryMeaning(CheckOne, eval, queries[i], Seen(queries[i], scopes, AUTHORIZER, registry, facts)) {
      var q := queries[i];
      var visible := Seen(q, scopes, AUTHORIZER, registry, facts);
      var m :| Matched(q, visible, m) && AllTrue(eval, q.expressions, m);
      assert q in queries && !FindsTrue(eval, q, visible);
      AllOrNothingTrue(eval, q.expressions, m);
      assert HasMatch(q, visible);
    }
    if q :| q in queries && q.expressions == [] && HasMatch(q, Seen(q, scopes, AUTHORIZER, registry, facts)) {
      var visible := Seen(q, scopes, AUTHORIZER, registry, facts);
      var m :| Matched(q, visible, m);
      assert AllTrue(eval, q.expressions, m);
      assert QueryMeaning(CheckOne, eval, q, visible);
      var i :| 0 <= i < |queries| && queries[i] == q;
    }
  }

  /** When every query has one expression, the authorizer decides every `reject if` the wrong way round. */
  lemma RejectNeverAgrees(eval: Eval, queries: seq<DRule>, scopes: seq<Scope>, registry: Registry, facts: set<DFact>)
    requires Sound(eval, queries, scopes, registry, facts) && forall q :: q in queries ==> |q.expressions| == 1
    ensures !Agrees(CheckReject, eval, queries, scopes, registry, facts)
  {
    RejectAgreesIff(eval, queries, scopes, registry, facts);
    hide Seen, Matched, HeadBound, ErrorFree, FindsTrue, QueryMeaning, HasMatch;
    if q :| q in queries && FindsTrue(eval, q, Seen(q, scopes, AUTHORIZER, registry, facts)) {
      OnlyOneTrue(eval, q, Seen(q, scopes, AUTHORIZER, registry, facts));
      var i :| 0 <= i < |queries| && queries[i] == q;
    }
  }

  lemma OnlyOneTrue(eval: Eval, query: DRule, facts: set<DFact>)
    requires |query.expressions| == 1 && FindsTrue(eval, query, facts)
    ensures QueryMeaning(CheckOne, eval, query, facts)
  {
    hide Matched;
    var m :| Matched(query, facts, m) && SomeTrue(eval, query.expressions, m);
    assert query.expressions == [query.expressions[0]];
    assert AllTrue(eval, query.expressions, m);
  }

  // ---- What the check alone tells ----

  /** Whatever the facts and the expressions come to, the authorizer decides the check with this one
      query as its kind means. */
  ghost predicate AlwaysAgrees(kind: CheckKind, query: DRule) {
    forall eval: Eval, scopes: seq<Scope>, registry: Registry, facts: set<DFact> ::
      Sound(eval, [query], scopes, registry, facts) ==> Agrees(kind, eval, [query], scopes, registry, facts)
  }

  /** A `check all` of one query is always decided as its kind means if and only if it has no expressions or
      its body no variables. */
  lemma AllAlwaysAgreesIff(query: DRule)
    requires HeadBound(query)
    ensures AlwaysAgrees(CheckAll, query) <==> query.expressions == [] || Variables(query.body) == {}
  {
    if query.expressions == [] || Variables(query.body) == {} {
      hide Seen, HeadBound, QueryMeaning, ErrorFree, Variables;
      forall eval: Eval, scopes: seq<Scope>, registry: Registry, facts: set<DFact>
        | Sound(eval, [query], scopes, registry, facts)
        ensures Agrees(CheckAll, eval, [query], scopes, registry, facts)
      {
        OneQuery(eval, query, scopes, registry, facts);
        AllIsOne(eval, query, Seen(query, scopes, AUTHORIZER, registry, facts));
      }
    } else {
      var eval, facts := AllIsNotOne(query);
      AllSeen(query, facts);
      hide Seen, HeadBound, QueryMeaning, ErrorFree, Variables;
      OneQuery(eval, query, [], map[], facts);
      assert !Agrees(CheckAll, eval, [query], [], map[], facts);
    }
  }

  lemma AllIsOne(eval: Eval, query: DRule, facts: set<DFact>)
    requires query.expressions == [] || Variables(query.body) == {}
    ensures QueryMeaning(CheckAll, eval, query, facts) <==> QueryMeaning(CheckOne, eval, query, facts)
  {
    OneMatchAtMost(query, facts);
    hide Matched, Variables;
  }

  /** Two matches, on only one of which the expressions are true. */
  lemma AllIsNotOne(query: DRule) returns (eval: Eval, facts: set<DFact>)
    requires query.expressions != [] && Variables(query.body) != {}
    ensures ErrorFree(eval, query, facts) && forall f :: f in facts ==> f.origin == {AUTHORIZER}
    ensures QueryMeaning(CheckOne, eval, query, facts) && !QueryMeaning(CheckAll, eval, query, facts)
  {
    hide Matched, Bound, Instances, QueryMeaning, ErrorFree;
    var zero, one := Bound(query.body, Integer(0)), Bound(query.body, Integer(1));
    facts := Instances(query.body, Integer(0)) + Instances(query.body, Integer(1));
    BoundApart(query.body);
    InstancesMatch(query, facts, Integer(0));
    InstancesMatch(query, facts, Integer(1));
    OwnFacts(query.body, Integer(0));
    OwnFacts(query.body, Integer(1));
    eval := Only(zero);
    TrueOnlyOnce(query, facts, zero, one);
  }

  lemma TrueOnlyOnce(query: DRule, facts: set<DFact>, zero: Bindings<string>, one: Bindings<string>)
    requires query.expressions != [] && zero != one && Matched(query, facts, zero) && Matched(query, facts, one)
    ensures ErrorFree(Only(zero), query, facts)
    ensures QueryMeaning(CheckOne, Only(zero), query, facts) && !QueryMeaning(CheckAll, Only(zero), query, facts)
  {
    hide Matched;
    assert query.expressions[0] in query.expressions;
    assert AllTrue(Only(zero), query.expressions, zero) && !AllTrue(Only(zero), query.expressions, one);
  }

  /** Every expression is true under these bindings, and false under any others. */
  function Only(m: Bindings<string>): Eval { (_, n) => Some(Bool(m == n)) }

  lemma BoundApart(body: seq<Predicate<string>>)
    requires Variables(body) != {}
    ensures Bound(body, Integer(0)) != Bound(body, Integer(1))
  {
    var v :| v in Variables(body);
    assert Bound(body, Integer(0))[v] != Bound(body, Integer(1))[v];
  }

  lemma OwnFacts(body: seq<Predicate<string>>, x: Term<string>)
    ensures forall f :: f in Instances(body, x) ==> f.origin == {AUTHORIZER}
  {
  }

  /** A `reject if` of one query is always decided as its kind means if and only if it is empty. */
  lemma RejectAlwaysAgreesIff(query: DRule)
    requires HeadBound(query)
    ensures AlwaysAgrees(CheckReject, query) <==> query.expressions == [] && query.body == []
  {
    hide Matched, Seen, HeadBound, Variables;
    if query.expressions == [] && query.body == [] {
      forall eval: Eval, scopes: seq<Scope>, registry: Registry, facts: set<DFact>
        | Sound(eval, [query], scopes, registry, facts)
        ensures Agrees(CheckReject, eval, [query], scopes, registry, facts)
      {
        EmptyBodyMatches(query, Seen(query, scopes, AUTHORIZER, registry, facts));
        OneQuery(eval, query, scopes, registry, facts);
      }
    } else {
      var eval: Eval := (e, m) => Some(Bool(true));
      var facts := if query.expressions == [] then {} else Instances(query.body, Integer(0));
      AllSeen(query, facts);
      OneQuery(eval, query, [], map[], facts);
      if query.expressions == [] {
        NoFactsNoMatch(query);
      } else {
        InstancesMatch(query, facts, Integer(0));
        assert query.expressions[0] in query.expressions;
        assert SomeTrue(eval, query.expressions, Bound(query.body, Integer(0)));
      }
      assert !Agrees(CheckReject, eval, [query], [], map[], facts);
    }
  }

  /** What agreement comes to for a single query. */
  lemma OneQuery(eval: Eval, query: DRule, scopes: seq<Scope>, registry: Registry, facts: set<DFact>)
    requires HeadBound(query)
    ensures var visible := Seen(query, scopes, AUTHORIZER, registry, facts);
            && (Sound(eval, [query], scopes, registry, facts) <==> ErrorFree(eval, query, visible))
            && (ErrorFree(eval, query, visible) ==>
                  forall kind :: Agrees(kind, eval, [query], scopes, registry, facts)
                                 <==> (QueryMeaning(CheckOne, eval, query, visible)
                                       <==> QueryMeaning(kind, eval, query, visible)))
  {
    hide Seen, HeadBound, ErrorFree, QueryMeaning;
    var visible := Seen(query, scopes, AUTHORIZER, registry, facts);
    assert [query][0] == query;
    if ErrorFree(eval, query, visible) {
      AnswerIsOne(eval, [query], scopes, registry, facts);
    }
  }

  /** All variables of the body bound to one term, and the facts this makes of it. */
  function Bound(body: seq<Predicate<string>>, x: Term<string>): Bindings<string> {
    map v | v in Variables(body) :: x
  }

  function Instance(p: Predicate<string>, x: Term<string>): DFact {
    OriginFact({AUTHORIZER}, Predicate(p.name, seq(|p.terms|, i requires 0 <= i < |p.terms| =>
                                                      if p.terms[i].Variable? then x else p.terms[i])))
  }

  function Instances(body: seq<Predicate<string>>, x: Term<string>): set<DFact> {
    set p | p in body :: Instance(p, x)
  }

  lemma InstancesMatch(query: DRule, facts: set<DFact>, x: Term<string>)
    requires Instances(query.body, x) <= facts
    ensures Matched(query, facts, Bound(query.body, x))
  {
    var body := query.body;
    var fs := seq(|body|, i requires 0 <= i < |body| => Instance(body[i], x));
    forall i | 0 <= i < |body|
      ensures fs[i] in facts
    {
      assert body[i] in body;
    }
    TuplesExact(facts, |body|, fs);
    forall p, i | 0 <= p < |body| && 0 <= i < |body[p].terms| && body[p].terms[i].Variable?
      ensures body[p].terms[i].v in Bound(body, x)
    {
      assert body[p] in body && body[p].terms[i] in body[p].terms;
      assert body[p].terms[i].v in TermVariables(body[p].terms);
    }
    assert Unifies(body, FactsOf(fs), Bound(body, x));
    UnifyExact(body, FactsOf(fs), Bound(body, x));
  }

  lemma OneMatchAtMost(query: DRule, facts: set<DFact>)
    ensures Variables(query.body) == {} ==> forall m :: Matched(query, facts, m) ==> m == map[]
  {
    forall m | Matched(query, facts, m)
      ensures m.Keys == Variables(query.body)
    {
      var fs :| fs in Tuples(facts, |query.body|) && |fs| == |query.body| && Unify(query.body, FactsOf(fs)) == Some(m);
      UnifyExact(query.body, FactsOf(fs), m);
    }
  }

  lemma NoFactsNoMatch(query: DRule)
    requires query.body != []
    ensures forall m :: !Matched(query, {}, m)
  {
    assert Tuples<DFact>({}, |query.body|) == {};
  }

  /** Every query of the authorizer sees the authorizer's own facts. */
  lemma AllSeen(query: DRule, facts: set<DFact>)
    requires forall f :: f in facts ==> f.origin == {AUTHORIZER}
    ensures Seen(query, [], AUTHORIZER, map[], facts) == facts
  {
  }

  // ---- Inputs ----

  /** The query `true`: no body, and one expression that is true. */
  function Always(): DRule { Rule(Predicate("query", []), [], [[Value(Bool(true))]], []) }

  /** `reject if true` passes as a check of the authorizer; as a check of a block it does not. */
  lemma OwnRejectPasses(regexp: Regexp, registry: Registry)
    ensures var eval := EvalOf(regexp);
            && Answer(eval, [Always()], [], registry, {}) == Some(true)
            && !CheckMeaning(CheckReject, eval, [Always()], [], 0, registry, {})
  {
    var eval := EvalOf(regexp);
    AlwaysHolds(regexp);
    hide EvalOf, QueryMeaning, HeadBound, ErrorFree, Always;
    forall block: BlockId
      ensures Seen(Always(), [], block, registry, {}) == {}
    {
    }
    hide Seen;
    AnswerIsOne(eval, [Always()], [], registry, {});
    assert [Always()][0] == Always();
    assert QueryMeaning(CheckOne, eval, [Always()][0], Seen([Always()][0], [], AUTHORIZER, registry, {}));
    assert !QueryMeaning(CheckReject, eval, [Always()][0], Seen([Always()][0], [], 0, registry, {}));
  }

  lemma AlwaysHolds(regexp: Regexp)
    ensures HeadBound(Always()) && ErrorFree(EvalOf(regexp), Always(), {})
    ensures QueryMeaning(CheckOne, EvalOf(regexp), Always(), {})
    ensures !QueryMeaning(CheckReject, EvalOf(regexp), Always(), {})
  {
    hide EvalOf, Matched;
    EmptyBodyMatches(Always(), {});
    TrueIsTrue(regexp, map[]);
    var e := [Value(Bool(true))];
    assert Always().expressions == [e] && e in Always().expressions;
    forall m | Matched(Always(), {}, m)
      ensures NoError(EvalOf(regexp), Always().expressions, m)
    {
      EmptyBodyOnly(Always(), {}, m);
    }
  }

  lemma EmptyBodyMatches(query: DRule, facts: set<DFact>)
    requires query.body == []
    ensures Matched(query, facts, map[])
  {
    assert [] in Tuples(facts, 0);
    assert FactsOf([]) == [];
    assert Unify(query.body, FactsOf([])) == Some(map[]);
  }

  lemma EmptyBodyOnly(query: DRule, facts: set<DFact>, m: Bindings<string>)
    requires query.body == [] && Matched(query, facts, m)
    ensures m == map[]
  {
  }

  lemma TrueIsTrue(regexp: Regexp, m: Bindings<string>)
    ensures EvalOf(regexp)([Value(Bool(true))], m) == Some(Bool(true))
    ensures EvalOf(regexp)([Value(Bool(false))], m) == Some(Bool(false))
  {
    var alg := EvalAlgebra(regexp, m);
    RunCode(alg, Leaf(Bool(true)));
    RunCode(alg, Leaf(Bool(false)));
  }

  /** A query with a true and a false expression passes neither as `check if` nor as `reject if`. */
  lemma NeitherOneNorReject(regexp: Regexp, query: DRule)
    requires query.body == [] && query.expressions == [[Value(Bool(true))], [Value(Bool(false))]]
    ensures !QueryMeaning(CheckOne, EvalOf(regexp), query, {})
    ensures !QueryMeaning(CheckReject, EvalOf(regexp), query, {})
  {
    var eval := EvalOf(regexp);
    EmptyBodyMatches(query, {});
    TrueIsTrue(regexp, map[]);
    assert query.expressions[0] in query.expressions && query.expressions[1] in query.expressions;
    assert SomeTrue(eval, query.expressions, map[]) && !AllTrue(eval, query.expressions, map[]);
    forall m | Matched(query, {}, m)
      ensures m == map[]
    {
      EmptyBodyOnly(query, {}, m);
    }
    hide EvalOf, Matched;
  }
}
