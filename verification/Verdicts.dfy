/** What the verdicts on queries and checks mean when expressions may err (datalog/evaluator.go,
    datalog/datalog.go). */
module Verdicts {
  import opened Wrappers
  import opened Types
  import opened Matching
  import opened Datalog
  import opened Evaluation
  import opened Scopes
  import opened Checks

  // ---- The expressions on one match ----

  /** Expression i is the first that is not true, whatever it comes to. */
  ghost predicate FirstUntrue(eval: Eval, exprs: seq<Expression<string>>, m: Bindings<string>, i: nat) {
    && i < |exprs| && eval(exprs[i], m) != Some(Bool(true))
    && forall j :: 0 <= j < i ==> eval(exprs[j], m) == Some(Bool(true))
  }

  /** The first expression that is not true errs. */
  ghost predicate StopsOnError(eval: Eval, exprs: seq<Expression<string>>, m: Bindings<string>) {
    exists i: nat :: FirstUntrue(eval, exprs, m, i) && eval(exprs[i], m) == None
  }

  /** The first expression that is not true exists and does not err. */
  ghost predicate StopsOnValue(eval: Eval, exprs: seq<Expression<string>>, m: Bindings<string>) {
    exists i: nat :: FirstUntrue(eval, exprs, m, i) && eval(exprs[i], m) != None
  }

  lemma JudgeExact(eval: Eval, exprs: seq<Expression<string>>, m: Bindings<string>)
    ensures Judge(eval, exprs, m) == Holds <==> AllTrue(eval, exprs, m)
    ensures Judge(eval, exprs, m) == Broken <==> StopsOnError(eval, exprs, m)
    ensures Judge(eval, exprs, m) == Fails <==> StopsOnValue(eval, exprs, m)
  {
    var i := 0;
    while i < |exprs| && eval(exprs[i], m) == Some(Bool(true))
      invariant i <= |exprs| && Judge(eval, exprs, m) == Judge(eval, exprs[i..], m)
      invariant forall j :: 0 <= j < i ==> eval(exprs[j], m) == Some(Bool(true))
    {
      i := i + 1;
    }
    ghost var v := Judge(eval, exprs, m);
    assert v == if i == |exprs| then Holds else if eval(exprs[i], m) == None then Broken else Fails;
    hide Judge;
    if i < |exprs| {
      assert FirstUntrue(eval, exprs, m, i) && exprs[i] in exprs;
    }
  }

  predicate Stops(v: Option<Term<string>>) { v == None || v == Some(Bool(true)) }

  /** Expression i is the first that is true or errs. */
  ghost predicate FirstStop(eval: Eval, exprs: seq<Expression<string>>, m: Bindings<string>, i: nat) {
    && i < |exprs| && Stops(eval(exprs[i], m))
    && forall j :: 0 <= j < i ==> !Stops(eval(exprs[j], m))
  }

  /** No expression errs and none is true. */
  ghost predicate Clean(eval: Eval, exprs: seq<Expression<string>>, m: Bindings<string>) {
    NoError(eval, exprs, m) && !SomeTrue(eval, exprs, m)
  }

  /** The first expression that is true or errs is true. */
  ghost predicate FindsTruth(eval: Eval, exprs: seq<Expression<string>>, m: Bindings<string>) {
    exists i: nat :: FirstStop(eval, exprs, m, i) && eval(exprs[i], m) == Some(Bool(true))
  }

  /** It errs. */
  ghost predicate FindsError(eval: Eval, exprs: seq<Expression<string>>, m: Bindings<string>) {
    exists i: nat :: FirstStop(eval, exprs, m, i) && eval(exprs[i], m) == None
  }

  lemma JudgeNoneExact(eval: Eval, exprs: seq<Expression<string>>, m: Bindings<string>)
    ensures JudgeNone(eval, exprs, m) == Holds <==> Clean(eval, exprs, m)
    ensures JudgeNone(eval, exprs, m) == Broken <==> FindsError(eval, exprs, m)
    ensures JudgeNone(eval, exprs, m) == Fails <==> FindsTruth(eval, exprs, m)
  {
    var i := 0;
    while i < |exprs| && !Stops(eval(exprs[i], m))
      invariant i <= |exprs| && JudgeNone(eval, exprs, m) == JudgeNone(eval, exprs[i..], m)
      invariant forall j :: 0 <= j < i ==> !Stops(eval(exprs[j], m))
    {
      i := i + 1;
    }
    ghost var v := JudgeNone(eval, exprs, m);
    assert v == if i == |exprs| then Holds else if eval(exprs[i], m) == None then Broken else Fails;
    hide JudgeNone;
    if i < |exprs| {
      assert FirstStop(eval, exprs, m, i) && exprs[i] in exprs;
    }
  }

  // ---- A rule on one tuple of facts ----

  /** The head with its variables replaced; there is none if a variable is unbound. */
  ghost predicate IsInstance(m: Bindings<string>, head: Predicate<string>, f: Fact<string>) {
    && f.name == head.name && |f.terms| == |head.terms|
    && forall i :: 0 <= i < |head.terms| ==>
         if head.terms[i].Variable? then head.terms[i].v in m && f.terms[i] == m[head.terms[i].v]
         else f.terms[i] == head.terms[i]
  }

  /** A rule yields a fact exactly when the tuple unifies with the body, all expressions are true, and the fact is the
      head under these bindings, with its own block and all the blocks of the tuple behind it. */
  lemma FiringExact(eval: Eval, rule: DRule, block: BlockId, fs: seq<DFact>, f: DFact)
    requires |fs| == |rule.body|
    ensures Fire(eval, rule, block, fs) == Yields(f) <==>
              exists m :: Unifies(rule.body, FactsOf(fs), m) && AllTrue(eval, rule.expressions, m)
                          && IsInstance(m, rule.head, f.fact)
                          && forall b :: b in f.origin <==> b == block || exists i :: 0 <= i < |fs| && b in fs[i].origin
  {
    var facts := FactsOf(fs);
    forall m
      ensures Unify(rule.body, facts) == Some(m) <==> Unifies(rule.body, facts, m)
      ensures Judge(eval, rule.expressions, m) == Holds <==> AllTrue(eval, rule.expressions, m)
      ensures Instantiate(m, rule.head) == Some(f.fact) <==> IsInstance(m, rule.head, f.fact)
    {
      UnifyExact(rule.body, facts, m);
      JudgeExact(eval, rule.expressions, m);
      InstanceExact(m, rule.head, f.fact);
    }
    hide Unify, Unifies, Judge, AllTrue, Instantiate, IsInstance;
    forall b
      ensures b in OriginsOf(fs) <==> exists i :: 0 <= i < |fs| && b in fs[i].origin
    {
      if i :| 0 <= i < |fs| && b in fs[i].origin {
        assert fs[i] in fs;
      }
    }
  }

  lemma InstanceExact(m: Bindings<string>, head: Predicate<string>, f: Fact<string>)
    ensures Instantiate(m, head) == Some(f) <==> IsInstance(m, head, f)
  {
    if IsInstance(m, head, f) {
      assert SubstTerms(m, head.terms).value == f.terms;
    }
  }

  /** It errs exactly when the tuple unifies and an expression errs before one is false, or all are true and a
      variable of the head is unbound. */
  lemma FiringErrs(eval: Eval, rule: DRule, block: BlockId, fs: seq<DFact>)
    requires |fs| == |rule.body|
    ensures Fire(eval, rule, block, fs).Error? <==>
              exists m :: Unifies(rule.body, FactsOf(fs), m)
                          && (StopsOnError(eval, rule.expressions, m)
                              || (AllTrue(eval, rule.expressions, m)
                                  && !(TermVariables(rule.head.terms) <= m.Keys)))
  {
    var facts := FactsOf(fs);
    forall m
      ensures Unify(rule.body, facts) == Some(m) <==> Unifies(rule.body, facts, m)
      ensures Judge(eval, rule.expressions, m) == Holds <==> AllTrue(eval, rule.expressions, m)
      ensures Judge(eval, rule.expressions, m) == Broken <==> StopsOnError(eval, rule.expressions, m)
      ensures Instantiate(m, rule.head).None? <==> !(TermVariables(rule.head.terms) <= m.Keys)
    {
      UnifyExact(rule.body, facts, m);
      JudgeExact(eval, rule.expressions, m);
      UnboundHead(m, rule.head);
    }
    hide Unify, Unifies, Judge, AllTrue, Instantiate, StopsOnError;
  }

  lemma UnboundHead(m: Bindings<string>, head: Predicate<string>)
    ensures Instantiate(m, head).None? <==> !(TermVariables(head.terms) <= m.Keys)
  {
    if i :| 0 <= i < |head.terms| && head.terms[i].Variable? && head.terms[i].v !in m {
      assert head.terms[i].v in TermVariables(head.terms);
    }
  }

  // ---- The matches in their order ----

  /** What the loops over matches do with the verdict on each. */
  lemma {:induction false} AnyOfExact(eval: Eval, exprs: seq<Expression<string>>, bs: seq<Bindings<string>>)
    ensures AnyOf(eval, exprs, bs) == Some(true) ==> exists m :: m in bs && Judge(eval, exprs, m) == Holds
    ensures AnyOf(eval, exprs, bs) == Some(false) <==> forall m :: m in bs ==> Judge(eval, exprs, m) == Fails
    ensures AnyOf(eval, exprs, bs) == None ==> exists m :: m in bs && Judge(eval, exprs, m) == Broken
    decreases |bs|
  {
    hide Judge;
    if bs != [] {
      assert bs == [bs[0]] + bs[1..] && bs[0] in bs;
      assert forall m :: m in bs <==> m == bs[0] || m in bs[1..];
      AnyOfExact(eval, exprs, bs[1..]);
      match Judge(eval, exprs, bs[0])
      case Holds =>
      case Fails =>
      case Broken =>
    }
  }

  lemma {:induction false} AllOfExact(eval: Eval, exprs: seq<Expression<string>>, bs: seq<Bindings<string>>,
                                      found: bool)
    ensures AllOf(eval, exprs, bs, found) == Some(true) <==>
              (found || bs != []) && forall m :: m in bs ==> Judge(eval, exprs, m) == Holds
    ensures AllOf(eval, exprs, bs, found) == Some(false) ==>
              (!found && bs == []) || exists m :: m in bs && Judge(eval, exprs, m) == Fails
    ensures AllOf(eval, exprs, bs, found) == None ==> exists m :: m in bs && Judge(eval, exprs, m) == Broken
    decreases |bs|
  {
    hide Judge;
    if bs != [] {
      assert bs == [bs[0]] + bs[1..] && bs[0] in bs;
      assert forall m :: m in bs <==> m == bs[0] || m in bs[1..];
      AllOfExact(eval, exprs, bs[1..], true);
      match Judge(eval, exprs, bs[0])
      case Holds =>
      case Fails =>
      case Broken =>
    }
  }

  lemma {:induction false} NoneOfExact(eval: Eval, exprs: seq<Expression<string>>, bs: seq<Bindings<string>>)
    ensures NoneOf(eval, exprs, bs) == Some(true) <==> forall m :: m in bs ==> JudgeNone(eval, exprs, m) == Holds
    ensures NoneOf(eval, exprs, bs) == Some(false) ==> exists m :: m in bs && JudgeNone(eval, exprs, m) == Fails
    ensures NoneOf(eval, exprs, bs) == None ==> exists m :: m in bs && JudgeNone(eval, exprs, m) == Broken
    decreases |bs|
  {
    hide JudgeNone;
    if bs != [] {
      assert bs == [bs[0]] + bs[1..] && bs[0] in bs;
      assert forall m :: m in bs <==> m == bs[0] || m in bs[1..];
      NoneOfExact(eval, exprs, bs[1..]);
      match JudgeNone(eval, exprs, bs[0])
      case Holds =>
      case Fails =>
      case Broken =>
    }
  }

  // ---- A query ----

  /** What it takes for a query to be true, one of the matches that must be there included. */
  ghost predicate Passes(kind: CheckKind, eval: Eval, query: DRule, facts: set<DFact>) {
    match kind
    case CheckOne => exists m :: Matched(query, facts, m) && AllTrue(eval, query.expressions, m)
    case CheckAll =>
      HasMatch(query, facts) && forall m :: Matched(query, facts, m) ==> AllTrue(eval, query.expressions, m)
    case CheckReject => forall m :: Matched(query, facts, m) ==> Clean(eval, query.expressions, m)
  }

  /** What it takes for a query to be false. */
  ghost predicate FallsShort(kind: CheckKind, eval: Eval, query: DRule, facts: set<DFact>) {
    match kind
    case CheckOne => forall m :: Matched(query, facts, m) ==> StopsOnValue(eval, query.expressions, m)
    case CheckAll =>
      !HasMatch(query, facts) || exists m :: Matched(query, facts, m) && StopsOnValue(eval, query.expressions, m)
    case CheckReject => exists m :: Matched(query, facts, m) && FindsTruth(eval, query.expressions, m)
  }

  /** What it takes for a query to err. */
  ghost predicate GoesWrong(kind: CheckKind, eval: Eval, query: DRule, facts: set<DFact>) {
    if kind == CheckReject then exists m :: Matched(query, facts, m) && FindsError(eval, query.expressions, m)
    else exists m :: Matched(query, facts, m) && StopsOnError(eval, query.expressions, m)
  }

  lemma KindExact(kind: CheckKind, eval: Eval, query: DRule, facts: set<DFact>, bs: seq<Bindings<string>>)
    requires forall m :: m in bs <==> Matched(query, facts, m)
    ensures var r := KindOf(kind, eval, query.expressions, bs);
            && (r == Some(true) ==> Passes(kind, eval, query, facts))
            && (r == Some(false) ==> FallsShort(kind, eval, query, facts))
            && (r == None ==> GoesWrong(kind, eval, query, facts))
            && (kind != CheckOne && Passes(kind, eval, query, facts) ==> r == Some(true))
            && (kind == CheckOne && FallsShort(kind, eval, query, facts) ==> r == Some(false))
  {
    hide Matched, Judge, JudgeNone, AllTrue, StopsOnError, StopsOnValue, Clean, FindsError, FindsTruth, AnyOf, AllOf,
         NoneOf;
    var exprs := query.expressions;
    assert bs != [] ==> bs[0] in bs;
    match kind
    case CheckOne =>
      AnyOfExact(eval, exprs, bs);
      JudgedExactly(eval, exprs);
    case CheckAll =>
      AllOfExact(eval, exprs, bs, false);
      JudgedExactly(eval, exprs);
    case CheckReject =>
      NoneOfExact(eval, exprs, bs);
      forall m
        ensures JudgeNone(eval, exprs, m) == Holds <==> Clean(eval, exprs, m)
        ensures JudgeNone(eval, exprs, m) == Broken <==> FindsError(eval, exprs, m)
        ensures JudgeNone(eval, exprs, m) == Fails <==> FindsTruth(eval, exprs, m)
      {
        JudgeNoneExact(eval, exprs, m);
      }
  }

  lemma JudgedExactly(eval: Eval, exprs: seq<Expression<string>>)
    ensures forall m :: Judge(eval, exprs, m) == Holds <==> AllTrue(eval, exprs, m)
    ensures forall m :: Judge(eval, exprs, m) == Broken <==> StopsOnError(eval, exprs, m)
    ensures forall m :: Judge(eval, exprs, m) == Fails <==> StopsOnValue(eval, exprs, m)
  {
    hide Judge, AllTrue, StopsOnError, StopsOnValue;
    forall m
      ensures Judge(eval, exprs, m) == Holds <==> AllTrue(eval, exprs, m)
      ensures Judge(eval, exprs, m) == Broken <==> StopsOnError(eval, exprs, m)
      ensures Judge(eval, exprs, m) == Fails <==> StopsOnValue(eval, exprs, m)
    {
      JudgeExact(eval, exprs, m);
    }
  }

  /** A verdict comes only with its reason, errors or not. One is false, and All and Reject are true, exactly
      with the reason, whatever the order of the facts. */
  lemma QueryVerdicts(kind: CheckKind, eval: Eval, query: DRule, facts: set<DFact>, r: Option<bool>)
    requires CanQuery(kind, eval, query, facts, r)
    ensures r == Some(true) ==> Passes(kind, eval, query, facts)
    ensures r == Some(false) ==> FallsShort(kind, eval, query, facts)
    ensures r == None ==> GoesWrong(kind, eval, query, facts)
    ensures kind != CheckOne && Passes(kind, eval, query, facts) ==> r == Some(true)
    ensures kind == CheckOne && FallsShort(kind, eval, query, facts) ==> r == Some(false)
  {
    hide Matched, MatchList, Lists, KindOf, Passes, FallsShort, GoesWrong;
    var allFacts, bs :|
      Lists(allFacts, facts) && MatchList(query.body, allFacts, bs) && r == KindOf(kind, eval, query.expressions, bs);
    forall m
      ensures m in bs <==> Matched(query, facts, m)
    {
      ListedAreMatched(query, allFacts, facts, bs, m);
    }
    KindExact(kind, eval, query, facts, bs);
  }

  /** The verdicts that do not depend on the order of the facts. */
  lemma QueryVerdictsIff(kind: CheckKind, eval: Eval, query: DRule, facts: set<DFact>)
    ensures kind != CheckOne ==>
              (CanQuery(kind, eval, query, facts, Some(true)) <==> Passes(kind, eval, query, facts))
    ensures kind == CheckOne ==>
              (CanQuery(kind, eval, query, facts, Some(false)) <==> FallsShort(kind, eval, query, facts))
    ensures !Passes(kind, eval, query, facts) && !FallsShort(kind, eval, query, facts) ==>
              forall r :: CanQuery(kind, eval, query, facts, r) <==> r == None
  {
    hide CanQuery, Passes, FallsShort, GoesWrong;
    var some := SomeVerdict(kind, eval, query, facts);
    forall r | CanQuery(kind, eval, query, facts, r)
      ensures r == None || r == Some(true) || r == Some(false)
      ensures r == Some(true) ==> Passes(kind, eval, query, facts)
      ensures r == Some(false) ==> FallsShort(kind, eval, query, facts)
      ensures kind != CheckOne && Passes(kind, eval, query, facts) ==> r == Some(true)
      ensures kind == CheckOne && FallsShort(kind, eval, query, facts) ==> r == Some(false)
    {
      QueryVerdicts(kind, eval, query, facts, r);
      ThreeVerdicts(r);
    }
  }

  /** When there is a match and every match errs at once, an error is the only verdict, of any kind. */
  lemma OnlyErrors(kind: CheckKind, eval: Eval, query: DRule, facts: set<DFact>)
    requires query.expressions != [] && HasMatch(query, facts)
    requires forall m :: Matched(query, facts, m) ==> eval(query.expressions[0], m) == None
    ensures forall r :: CanQuery(kind, eval, query, facts, r) <==> r == None
  {
    QueryVerdictsIff(kind, eval, query, facts);
    hide CanQuery, Matched;
    var exprs := query.expressions;
    assert exprs[0] in exprs;
    forall m | Matched(query, facts, m)
      ensures !AllTrue(eval, exprs, m) && !Clean(eval, exprs, m)
      ensures !StopsOnValue(eval, exprs, m) && !FindsTruth(eval, exprs, m)
    {
    }
    hide AllTrue, Clean, StopsOnValue, FindsTruth;
  }

  // ---- A check ----

  /** Where a check runs: the scopes and id of its block, the registered keys, and the facts. */
  datatype Place = Place(scopes: seq<Scope>, block: BlockId, registry: Registry, facts: set<DFact>)

  function SeenAt(query: DRule, at: Place): set<DFact> { Seen(query, at.scopes, at.block, at.registry, at.facts) }

  ghost predicate PassesAt(kind: CheckKind, eval: Eval, query: DRule, at: Place) {
    Passes(kind, eval, query, SeenAt(query, at))
  }

  ghost predicate FallsShortAt(kind: CheckKind, eval: Eval, query: DRule, at: Place) {
    FallsShort(kind, eval, query, SeenAt(query, at))
  }

  ghost predicate GoesWrongAt(kind: CheckKind, eval: Eval, query: DRule, at: Place) {
    GoesWrong(kind, eval, query, SeenAt(query, at))
  }

  ghost predicate CanComeTo(kind: CheckKind, eval: Eval, queries: seq<DRule>, at: Place, passing: bool,
                            r: Option<bool>)
  {
    CanVerifyFrom(kind, eval, queries, at.scopes, at.block, at.registry, at.facts, passing, r)
  }

  /** Query i is true and the ones before it are false. */
  ghost predicate FirstToPass(eval: Eval, queries: seq<DRule>, at: Place, i: nat) {
    && i < |queries| && PassesAt(CheckOne, eval, queries[i], at)
    && forall j :: 0 <= j < i ==> FallsShortAt(CheckOne, eval, queries[j], at)
  }

  /** Query i errs and the ones before it are false. */
  ghost predicate FirstToErr(eval: Eval, queries: seq<DRule>, at: Place, i: nat) {
    && i < |queries| && GoesWrongAt(CheckOne, eval, queries[i], at)
    && forall j :: 0 <= j < i ==> FallsShortAt(CheckOne, eval, queries[j], at)
  }

  /** A check of kind One is true only if some query is, after queries that are all false; false exactly when all
      are false; and errs only if some query does, after queries that are all false. */
  lemma {:induction false} OneVerdicts(eval: Eval, queries: seq<DRule>, at: Place, r: Option<bool>)
    requires CanComeTo(CheckOne, eval, queries, at, false, r)
    ensures r == Some(true) ==> exists i: nat :: FirstToPass(eval, queries, at, i)
    ensures r == None ==> exists i: nat :: FirstToErr(eval, queries, at, i)
    ensures r == Some(false) <==> forall i :: 0 <= i < |queries| ==> FallsShortAt(CheckOne, eval, queries[i], at)
    decreases |queries|
  {
    hide CanQuery, Passes, FallsShort, GoesWrong, Seen;
    if queries != [] {
      var visible, rest := SeenAt(queries[0], at), queries[1..];
      var q :| CanQuery(CheckOne, eval, queries[0], visible, q)
               && match q
                  case None => r == None
                  case Some(b) => if b then r == Some(true) else CanComeTo(CheckOne, eval, rest, at, false, r);
      QueryVerdicts(CheckOne, eval, queries[0], visible, q);
      assert forall i :: 0 <= i < |rest| ==> rest[i] == queries[i + 1];
      if q == Some(false) {
        OneVerdicts(eval, rest, at, r);
        if i: nat :| FirstToPass(eval, rest, at, i) {
          assert FirstToPass(eval, queries, at, i + 1);
        }
        if i: nat :| FirstToErr(eval, rest, at, i) {
          assert FirstToErr(eval, queries, at, i + 1);
        }
      } else {
        assert q == Some(true) ==> FirstToPass(eval, queries, at, 0);
        assert q == None ==> FirstToErr(eval, queries, at, 0);
        ThreeVerdicts(q);
      }
    }
  }

  /** A check of kind All or Reject is true exactly when all its queries are; false only if one is, and every
      query is true or false; and errs only if some query does. */
  lemma {:induction false} EachVerdicts(kind: CheckKind, eval: Eval, queries: seq<DRule>, at: Place, passing: bool,
                                        r: Option<bool>)
    requires kind != CheckOne && CanComeTo(kind, eval, queries, at, passing, r)
    ensures r == Some(true) <==> passing && forall i :: 0 <= i < |queries| ==> PassesAt(kind, eval, queries[i], at)
    ensures r == Some(false) ==>
              !passing || exists i :: 0 <= i < |queries| && FallsShortAt(kind, eval, queries[i], at)
    ensures r.Some? ==> forall i :: 0 <= i < |queries| ==>
              PassesAt(kind, eval, queries[i], at) || FallsShortAt(kind, eval, queries[i], at)
    ensures r == None ==> exists i :: 0 <= i < |queries| && GoesWrongAt(kind, eval, queries[i], at)
    decreases |queries|
  {
    hide CanQuery, Passes, FallsShort, GoesWrong, Seen;
    if queries != [] {
      var visible, rest := SeenAt(queries[0], at), queries[1..];
      var q :| CanQuery(kind, eval, queries[0], visible, q)
               && match q
                  case None => r == None
                  case Some(b) => CanComeTo(kind, eval, rest, at, passing && b, r);
      QueryVerdicts(kind, eval, queries[0], visible, q);
      assert forall i :: 0 <= i < |rest| ==> rest[i] == queries[i + 1];
      assert forall i :: 0 < i < |queries| ==> queries[i] == rest[i - 1];
      ThreeVerdicts(q);
      if q.Some? {
        EachVerdicts(kind, eval, rest, at, passing && q.value, r);
      }
    }
  }

  ghost predicate Comes(eval: Eval, check: DCheck, at: Place, r: Option<bool>) {
    CanVerify(eval, check, at.scopes, at.block, at.registry, at.facts, r)
  }

  /** The verdicts on a whole check that do not depend on the order of the facts. */
  lemma CheckVerdictsIff(eval: Eval, check: DCheck, at: Place)
    ensures check.kind != CheckOne ==>
              (Comes(eval, check, at, Some(true)) <==>
                 forall i :: 0 <= i < |check.queries| ==> PassesAt(check.kind, eval, check.queries[i], at))
    ensures check.kind == CheckOne ==>
              (Comes(eval, check, at, Some(false)) <==>
                 forall i :: 0 <= i < |check.queries| ==> FallsShortAt(CheckOne, eval, check.queries[i], at))
  {
    hide PassesAt, FallsShortAt, CanVerifyFrom;
    var some := CheckComesTo(check.kind, eval, check.queries, at.scopes, at.block, at.registry, at.facts,
                             check.kind != CheckOne);
    forall r | Comes(eval, check, at, r)
      ensures check.kind != CheckOne ==>
                (r == Some(true) <==>
                   forall i :: 0 <= i < |check.queries| ==> PassesAt(check.kind, eval, check.queries[i], at))
      ensures check.kind == CheckOne ==>
                (r == Some(false) <==>
                   forall i :: 0 <= i < |check.queries| ==> FallsShortAt(CheckOne, eval, check.queries[i], at))
    {
      if check.kind == CheckOne {
        OneVerdicts(eval, check.queries, at, r);
      } else {
        EachVerdicts(check.kind, eval, check.queries, at, true, r);
      }
    }
    assert Comes(eval, check, at, some);
  }

  /** A check that passes holds, whether or not other expressions err. */
  lemma PassingCheckHolds(eval: Eval, check: DCheck, at: Place)
    requires Comes(eval, check, at, Some(true))
    ensures CheckMeaning(check.kind, eval, check.queries, at.scopes, at.block, at.registry, at.facts)
  {
    hide CanQuery, Seen, Matched, AllTrue, CanVerifyFrom;
    if check.kind == CheckOne {
      OneVerdicts(eval, check.queries, at, Some(true));
      var i: nat :| FirstToPass(eval, check.queries, at, i);
      assert QueryMeaning(CheckOne, eval, check.queries[i], SeenAt(check.queries[i], at));
    } else {
      EachVerdicts(check.kind, eval, check.queries, at, true, Some(true));
      forall i | 0 <= i < |check.queries|
        ensures QueryMeaning(check.kind, eval, check.queries[i], SeenAt(check.queries[i], at))
      {
        assert PassesAt(check.kind, eval, check.queries[i], at);
      }
    }
  }

  /** The query has a match, and errs on every one at its first expression. */
  ghost predicate ErrsAtOnce(eval: Eval, query: DRule, at: Place) {
    && query.expressions != [] && HasMatch(query, SeenAt(query, at))
    && forall m :: Matched(query, SeenAt(query, at), m) ==> eval(query.expressions[0], m) == None
  }

  lemma ErringQuery(kind: CheckKind, eval: Eval, query: DRule, at: Place)
    requires ErrsAtOnce(eval, query, at)
    ensures !PassesAt(kind, eval, query, at) && !FallsShortAt(kind, eval, query, at)
  {
    hide Matched, Seen;
    var exprs := query.expressions;
    assert exprs[0] in exprs;
    forall m | Matched(query, SeenAt(query, at), m)
      ensures !AllTrue(eval, exprs, m) && !Clean(eval, exprs, m)
      ensures !StopsOnValue(eval, exprs, m) && !FindsTruth(eval, exprs, m)
    {
    }
    hide AllTrue, Clean, StopsOnValue, FindsTruth;
  }

  /** A check with a query that errs on every match comes to an error only: under All and Reject wherever the query
      stands, under One after queries that are false. */
  lemma ErringCheck(eval: Eval, check: DCheck, at: Place, i: nat, r: Option<bool>)
    requires i < |check.queries| && ErrsAtOnce(eval, check.queries[i], at)
    requires check.kind == CheckOne ==>
               forall j :: 0 <= j < i ==> FallsShortAt(CheckOne, eval, check.queries[j], at)
    requires Comes(eval, check, at, r)
    ensures r == None
  {
    ErringQuery(check.kind, eval, check.queries[i], at);
    hide ErrsAtOnce, CanVerifyFrom, Seen;
    ThreeVerdicts(r);
    if check.kind == CheckOne {
      OneVerdicts(eval, check.queries, at, r);
      hide Matched, AllTrue, StopsOnValue;
      forall j | 0 <= j < i
        ensures !PassesAt(CheckOne, eval, check.queries[j], at)
      {
        NotBoth(eval, check.queries[j], at);
      }
      hide PassesAt, FallsShortAt;
    } else {
      EachVerdicts(check.kind, eval, check.queries, at, true, r);
    }
  }

  lemma NotBoth(eval: Eval, query: DRule, at: Place)
    requires FallsShortAt(CheckOne, eval, query, at)
    ensures !PassesAt(CheckOne, eval, query, at)
  {
    hide Matched, Seen;
    forall m | AllTrue(eval, query.expressions, m)
      ensures !StopsOnValue(eval, query.expressions, m)
    {
      JudgeExact(eval, query.expressions, m);
    }
  }
}
