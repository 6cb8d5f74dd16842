/** Check.Verify of datalog/datalog.go, and what its three kinds mean. */
module Checks {
  import opened Wrappers
  import opened Types
  import opened Matching
  import opened Odometer
  import opened Datalog
  import opened Evaluation
  import opened Worlds
  import opened Scopes

  type DCheck = Check<string>

  // ---- What each verify function computes from the list of matches; None is an error ----

  function AnyOf(eval: Eval, exprs: seq<Expression<string>>, bs: seq<Bindings<string>>): Option<bool>
    decreases |bs|
  {
    if bs == [] then Some(false)
    else
      match Judge(eval, exprs, bs[0])
      case Broken => None
      case Holds => Some(true)
      case Fails => AnyOf(eval, exprs, bs[1..])
  }

  function AllOf(eval: Eval, exprs: seq<Expression<string>>, bs: seq<Bindings<string>>, found: bool): Option<bool>
    decreases |bs|
  {
    if bs == [] then Some(found)
    else
      match Judge(eval, exprs, bs[0])
      case Broken => None
      case Holds => AllOf(eval, exprs, bs[1..], true)
      case Fails => Some(false)
  }

  /** Here every expression is looked at, until one errs or is true. */
  function JudgeNone(eval: Eval, exprs: seq<Expression<string>>, m: Bindings<string>): Verdict
    decreases |exprs|
  {
    if exprs == [] then Holds
    else
      match eval(exprs[0], m)
      case None => Broken
      case Some(t) => if t == Bool(true) then Fails else JudgeNone(eval, exprs[1..], m)
  }

  function NoneOf(eval: Eval, exprs: seq<Expression<string>>, bs: seq<Bindings<string>>): Option<bool>
    decreases |bs|
  {
    if bs == [] then Some(true)
    else
      match JudgeNone(eval, exprs, bs[0])
      case Broken => None
      case Holds => NoneOf(eval, exprs, bs[1..])
      case Fails => Some(false)
  }

  function KindOf(kind: CheckKind, eval: Eval, exprs: seq<Expression<string>>,
                  bs: seq<Bindings<string>>): Option<bool> {
    match kind
    case CheckOne => AnyOf(eval, exprs, bs)
    case CheckAll => AllOf(eval, exprs, bs, false)
    case CheckReject => NoneOf(eval, exprs, bs)
  }

  /** ts are the index tuples of all the matches, in lexicographic order, and bs their bindings. */
  ghost predicate ListedBy(preds: seq<DPredicate>, allFacts: seq<DFact>, bs: seq<Bindings<string>>, ts: seq<seq<nat>>) {
    && |ts| == |bs|
    && (forall i :: 0 <= i < |ts| ==>
          IsTupleOf(preds, allFacts, ts[i]) && MatchAt(preds, allFacts, ts[i]) == Some(bs[i]))
    && (forall i, j :: 0 <= i < j < |ts| ==> |ts[i]| == |ts[j]| && LexLess(ts[i], ts[j]))
    && (forall t :: IsTupleOf(preds, allFacts, t) && t !in ts ==> NoMatch(preds, allFacts, t))
  }

  /** bs are the bindings of the matches, in the order matches yields them. */
  ghost predicate MatchList(preds: seq<DPredicate>, allFacts: seq<DFact>, bs: seq<Bindings<string>>) {
    exists ts :: ListedBy(preds, allFacts, bs, ts)
  }

  /** The matches of a body, in the order matches yields them. */
  method MatchesOf(preds: seq<DPredicate>, allFacts: seq<DFact>) returns (bs: seq<Bindings<string>>)
    ensures MatchList(preds, allFacts, bs)
  {
    hide NoMatch, MatchAt, LexLess;
    var ms, ts := AllMatches(preds, allFacts);
    bs := seq(|ms|, i requires 0 <= i < |ms| => ms[i].variables);
    forall i | 0 <= i < |ts|
      ensures IsTupleOf(preds, allFacts, ts[i]) && MatchAt(preds, allFacts, ts[i]) == Some(bs[i])
    {
      assert IsMatch(preds, allFacts, ts[i], ms[i]);
    }
    assert ListedBy(preds, allFacts, bs, ts);
  }

  method VerifyAnyMatches(eval: Eval, exprs: seq<Expression<string>>, bs: seq<Bindings<string>>)
    returns (r: Option<bool>)
    ensures r == AnyOf(eval, exprs, bs)
  {
    for i := 0 to |bs|
      invariant AnyOf(eval, exprs, bs) == AnyOf(eval, exprs, bs[i..])
    {
      var v := JudgeAll(eval, exprs, bs[i]);
      match v
      case Broken => return None;
      case Holds => return Some(true);
      case Fails =>
    }
    r := Some(false);
  }

  method VerifyAllMatches(eval: Eval, exprs: seq<Expression<string>>, bs: seq<Bindings<string>>)
    returns (r: Option<bool>)
    ensures r == AllOf(eval, exprs, bs, false)
  {
    var found := false;
    for i := 0 to |bs|
      invariant AllOf(eval, exprs, bs, false) == AllOf(eval, exprs, bs[i..], found)
    {
      found := true;
      var v := JudgeAll(eval, exprs, bs[i]);
      match v
      case Broken => return None;
      case Holds =>
      case Fails => return Some(false);
    }
    r := Some(found);
  }

  method VerifyNoMatches(eval: Eval, exprs: seq<Expression<string>>, bs: seq<Bindings<string>>)
    returns (r: Option<bool>)
    ensures r == NoneOf(eval, exprs, bs)
  {
    for i := 0 to |bs|
      invariant NoneOf(eval, exprs, bs) == NoneOf(eval, exprs, bs[i..])
    {
      for j := 0 to |exprs|
        invariant JudgeNone(eval, exprs, bs[i]) == JudgeNone(eval, exprs[j..], bs[i])
      {
        var res := eval(exprs[j], bs[i]);
        if res.None? {
          return None;
        }
        if res.value == Bool(true) {
          return Some(false);
        }
      }
    }
    r := Some(true);
  }

  // ---- A whole check ----

  /** A query over these facts can give r, for some order of the facts. */
  ghost predicate CanQuery(kind: CheckKind, eval: Eval, query: DRule, facts: set<DFact>, r: Option<bool>) {
    exists allFacts, bs ::
      Lists(allFacts, facts) && MatchList(query.body, allFacts, bs) && r == KindOf(kind, eval, query.expressions, bs)
  }

  /** The facts a query of a check in this block sees. */
  function Seen(query: DRule, blockScopes: seq<Scope>, block: BlockId, registry: Registry,
                facts: set<DFact>): set<DFact> {
    Visible(facts, TrustedFromScopes(blockScopes, query.scopes, block, registry))
  }

  /** The remaining queries of a check can give r. */
  ghost predicate CanVerifyFrom(kind: CheckKind, eval: Eval, queries: seq<DRule>, blockScopes: seq<Scope>,
                                block: BlockId, registry: Registry, facts: set<DFact>, passing: bool, r: Option<bool>)
    decreases |queries|
  {
    if queries == [] then r == Some(passing)
    else
      exists q ::
        && CanQuery(kind, eval, queries[0], Seen(queries[0], blockScopes, block, registry, facts), q)
        && match q
           case None => r == None
           case Some(b) =>
             if kind == CheckOne && b then r == Some(true)
             else CanVerifyFrom(kind, eval, queries[1..], blockScopes, block, registry, facts,
                                if kind == CheckOne then passing else passing && b, r)
  }

  /** A check can give r, for some orders of the facts its queries see. */
  ghost predicate CanVerify(eval: Eval, check: DCheck, blockScopes: seq<Scope>, block: BlockId, registry: Registry,
                            facts: set<DFact>, r: Option<bool>)
  {
    CanVerifyFrom(check.kind, eval, check.queries, blockScopes, block, registry, facts, check.kind != CheckOne, r)
  }

  /** One query of a check. */
  method VerifyQuery(kind: CheckKind, eval: Eval, query: DRule, facts: set<DFact>) returns (r: Option<bool>)
    ensures CanQuery(kind, eval, query, facts, r)
  {
    var allFacts := ListFacts(facts);
    var bs := MatchesOf(query.body, allFacts);
    match kind
    case CheckOne => r := VerifyAnyMatches(eval, query.expressions, bs);
    case CheckAll => r := VerifyAllMatches(eval, query.expressions, bs);
    case CheckReject => r := VerifyNoMatches(eval, query.expressions, bs);
  }

  /** Check.Verify. Under `all` and `reject` a failed query does not end the loop, so a later
      one can still err. */
  method Verify(eval: Eval, check: DCheck, facts: set<DFact>, blockScopes: seq<Scope>, block: BlockId,
                registry: Registry)
      returns (r: Option<bool>)
    ensures CanVerify(eval, check, blockScopes, block, registry, facts, r)
  {
    hide CanQuery;
    var passing := check.kind != CheckOne;
    var queries := check.queries;
    for i := 0 to |queries|
      invariant forall x :: CanVerifyFrom(check.kind, eval, queries[i..], blockScopes, block, registry, facts,
                                          passing, x)
                  ==> CanVerify(eval, check, blockScopes, block, registry, facts, x)
    {
      var query := queries[i];
      var trusted := NewTrustedOriginFromScopes(blockScopes, query.scopes, block, registry);
      var visible := Visible(facts, trusted);
      var q := VerifyQuery(check.kind, eval, query, visible);
      assert queries[i..][0] == query && queries[i..][1..] == queries[i + 1..];
      assert visible == Seen(query, blockScopes, block, registry, facts);
      ghost var before := passing;
      match q {
        case None =>
          assert CanVerifyFrom(check.kind, eval, queries[i..], blockScopes, block, registry, facts, before, None);
          return None;
        case Some(success) =>
          if check.kind == CheckOne {
            if success {
              assert CanVerifyFrom(check.kind, eval, queries[i..], blockScopes, block, registry, facts, before,
                                   Some(true));
              return Some(true);
            }
          } else if !success {
            passing := false;
          }
      }
      forall x | CanVerifyFrom(check.kind, eval, queries[i + 1..], blockScopes, block, registry, facts, passing, x)
        ensures CanVerifyFrom(check.kind, eval, queries[i..], blockScopes, block, registry, facts, before, x)
      {
      }
    }
    assert CanVerifyFrom(check.kind, eval, queries[|queries|..], blockScopes, block, registry, facts, passing,
                         Some(passing));
    r := Some(passing);
  }

  lemma ThreeVerdicts(r: Option<bool>)
    ensures r == None || r == Some(true) || r == Some(false)
  {
    if r.Some? && !r.value {
      assert r == Some(false);
    }
  }

  // ---- A check always comes to something ----

  /** The matches at the index tuples below a rank. */
  lemma {:induction false} ListBelow(preds: seq<DPredicate>, facts: seq<DFact>, r: nat)
      returns (ms: seq<MatchResult>, ts: seq<seq<nat>>)
    ensures Collected(preds, facts, ms, ts, r)
    ensures forall u :: IsTupleOf(preds, facts, u) && Rank(u, |facts|) < r && u !in ts ==> NoMatch(preds, facts, u)
  {
    hide MatchAt, PrefixRank, Power, At;
    ms, ts := [], [];
    if r > 0 {
      ms, ts := ListBelow(preds, facts, r - 1);
      if u :| IsTupleOf(preds, facts, u) && Rank(u, |facts|) == r - 1 && MatchAt(preds, facts, u).Some? {
        var origin := if preds == [] then None else Some(OriginsOf(At(facts, u)));
        var m := MatchResult(origin, MatchAt(preds, facts, u).value);
        forall w | IsTupleOf(preds, facts, w) && Rank(w, |facts|) == r - 1
          ensures w == u
        {
          PrefixInjective(w, u, |facts|, |preds|);
          assert w[..|preds|] == w && u[..|preds|] == u;
        }
        CollectNext(preds, facts, ms, ts, r - 1, m, u);
        ms, ts := ms + [m], ts + [u];
      }
    }
  }

  lemma SomeMatchList(preds: seq<DPredicate>, facts: seq<DFact>) returns (bs: seq<Bindings<string>>)
    ensures MatchList(preds, facts, bs)
  {
    var ms, ts := ListBelow(preds, facts, Power(|facts|, |preds|));
    forall u | IsTupleOf(preds, facts, u)
      ensures Rank(u, |facts|) < Power(|facts|, |preds|)
    {
      PrefixRankBound(u, |facts|, |preds|);
    }
    hide NoMatch, MatchAt, PrefixRank, Power, At;
    forall i, j | 0 <= i < j < |ts|
      ensures |ts[i]| == |ts[j]| && LexLess(ts[i], ts[j])
    {
      assert IsMatch(preds, facts, ts[i], ms[i]) && IsMatch(preds, facts, ts[j], ms[j]);
      RankIsLexicographic(ts[i], ts[j], |facts|);
    }
    bs := seq(|ms|, i requires 0 <= i < |ms| => ms[i].variables);
    forall i | 0 <= i < |ts|
      ensures IsTupleOf(preds, facts, ts[i]) && MatchAt(preds, facts, ts[i]) == Some(bs[i])
    {
      assert IsMatch(preds, facts, ts[i], ms[i]);
    }
    assert ListedBy(preds, facts, bs, ts);
  }

  lemma {:induction false} SomeListing(facts: set<DFact>) returns (allFacts: seq<DFact>)
    ensures Lists(allFacts, facts)
    decreases facts
  {
    allFacts := [];
    if f :| f in facts {
      allFacts := SomeListing(facts - {f});
      allFacts := allFacts + [f];
    }
  }

  lemma SomeVerdict(kind: CheckKind, eval: Eval, query: DRule, facts: set<DFact>) returns (r: Option<bool>)
    ensures CanQuery(kind, eval, query, facts, r)
  {
    var allFacts := SomeListing(facts);
    var bs := SomeMatchList(query.body, allFacts);
    hide MatchList, Lists, KindOf;
    r := KindOf(kind, eval, query.expressions, bs);
  }

  /** Whatever the check, some verdict on it is possible. */
  lemma {:induction false} CheckComesTo(kind: CheckKind, eval: Eval, queries: seq<DRule>, blockScopes: seq<Scope>,
                                        block: BlockId, registry: Registry, facts: set<DFact>, passing: bool)
      returns (r: Option<bool>)
    ensures CanVerifyFrom(kind, eval, queries, blockScopes, block, registry, facts, passing, r)
    decreases |queries|
  {
    hide CanQuery, Seen;
    r := Some(passing);
    if queries != [] {
      var q := SomeVerdict(kind, eval, queries[0], Seen(queries[0], blockScopes, block, registry, facts));
      if q.None? {
        r := None;
      } else if kind == CheckOne && q.value {
        r := Some(true);
      } else {
        r := CheckComesTo(kind, eval, queries[1..], blockScopes, block, registry, facts,
                          if kind == CheckOne then passing else passing && q.value);
      }
    }
  }

  // ---- What the kinds mean when no expression errs ----

  /** m are the bindings of a match of the query over these facts. */
  ghost predicate Matched(query: DRule, facts: set<DFact>, m: Bindings<string>) {
    exists fs :: fs in Tuples(facts, |query.body|) && |fs| == |query.body| && Unify(query.body, FactsOf(fs)) == Some(m)
  }

  predicate AllTrue(eval: Eval, exprs: seq<Expression<string>>, m: Bindings<string>) {
    forall e :: e in exprs ==> eval(e, m) == Some(Bool(true))
  }

  predicate SomeTrue(eval: Eval, exprs: seq<Expression<string>>, m: Bindings<string>) {
    exists e :: e in exprs && eval(e, m) == Some(Bool(true))
  }

  predicate NoError(eval: Eval, exprs: seq<Expression<string>>, m: Bindings<string>) {
    forall e :: e in exprs ==> eval(e, m).Some?
  }

  /** No expression errs on any match. */
  ghost predicate ErrorFree(eval: Eval, query: DRule, facts: set<DFact>) {
    forall m :: Matched(query, facts, m) ==> NoError(eval, query.expressions, m)
  }

  ghost predicate QueryMeaning(kind: CheckKind, eval: Eval, query: DRule, facts: set<DFact>) {
    match kind
    case CheckOne => exists m :: Matched(query, facts, m) && AllTrue(eval, query.expressions, m)
    case CheckAll =>
      && (exists m :: Matched(query, facts, m))
      && forall m :: Matched(query, facts, m) ==> AllTrue(eval, query.expressions, m)
    case CheckReject => forall m :: Matched(query, facts, m) ==> !SomeTrue(eval, query.expressions, m)
  }

  /** One query is enough for `check if`; `check all` and `reject if` need every query. */
  ghost predicate CheckMeaning(kind: CheckKind, eval: Eval, queries: seq<DRule>, blockScopes: seq<Scope>,
                               block: BlockId, registry: Registry, facts: set<DFact>)
  {
    if kind == CheckOne then
      exists i :: 0 <= i < |queries| &&
        QueryMeaning(kind, eval, queries[i], Seen(queries[i], blockScopes, block, registry, facts))
    else
      forall i :: 0 <= i < |queries| ==>
        QueryMeaning(kind, eval, queries[i], Seen(queries[i], blockScopes, block, registry, facts))
  }

  lemma ListedAreMatched(query: DRule, allFacts: seq<DFact>, facts: set<DFact>, bs: seq<Bindings<string>>,
                         m: Bindings<string>)
    requires Lists(allFacts, facts) && MatchList(query.body, allFacts, bs)
    ensures m in bs <==> Matched(query, facts, m)
  {
    var ts :| ListedBy(query.body, allFacts, bs, ts);
    hide LexLess, Unify, Tuples, Lists;
    if m in bs {
      var i :| 0 <= i < |bs| && bs[i] == m;
      AtIsTuple(allFacts, facts, ts[i]);
      assert Unify(query.body, FactsOf(At(allFacts, ts[i]))) == Some(m);
    }
    if Matched(query, facts, m) {
      var fs :| fs in Tuples(facts, |query.body|) && |fs| == |query.body| && Unify(query.body, FactsOf(fs)) == Some(m);
      var t := TupleIsAt(allFacts, facts, |query.body|, fs);
      assert IsTupleOf(query.body, allFacts, t) && !NoMatch(query.body, allFacts, t);
      var i :| 0 <= i < |ts| && ts[i] == t;
      assert bs[i] == m;
    }
  }

  lemma {:induction false} JudgeMeans(eval: Eval, exprs: seq<Expression<string>>, m: Bindings<string>)
    requires NoError(eval, exprs, m)
    ensures Judge(eval, exprs, m) == if AllTrue(eval, exprs, m) then Holds else Fails
    ensures JudgeNone(eval, exprs, m) == if SomeTrue(eval, exprs, m) then Fails else Holds
    decreases |exprs|
  {
    if exprs != [] {
      assert exprs == [exprs[0]] + exprs[1..];
      JudgeMeans(eval, exprs[1..], m);
    }
  }

  lemma {:induction false} KindMeans(eval: Eval, exprs: seq<Expression<string>>, bs: seq<Bindings<string>>, found: bool)
    requires forall m :: m in bs ==> NoError(eval, exprs, m)
    ensures AnyOf(eval, exprs, bs) == Some(exists m :: m in bs && AllTrue(eval, exprs, m))
    ensures AllOf(eval, exprs, bs, found)
            == Some((found || bs != []) && forall m :: m in bs ==> AllTrue(eval, exprs, m))
    ensures NoneOf(eval, exprs, bs) == Some(forall m :: m in bs ==> !SomeTrue(eval, exprs, m))
    decreases |bs|
  {
    hide NoError, AllTrue, SomeTrue, Judge, JudgeNone;
    if bs != [] {
      assert bs == [bs[0]] + bs[1..];
      JudgeMeans(eval, exprs, bs[0]);
      KindMeans(eval, exprs, bs[1..], true);
    }
  }

  lemma QueryMeans(kind: CheckKind, eval: Eval, query: DRule, facts: set<DFact>, r: Option<bool>)
    requires ErrorFree(eval, query, facts) && CanQuery(kind, eval, query, facts, r)
    ensures r == Some(QueryMeaning(kind, eval, query, facts))
  {
    hide Matched, NoError, AllTrue, SomeTrue, MatchList, Lists, AnyOf, AllOf, NoneOf;
    var allFacts, bs :|
      Lists(allFacts, facts) && MatchList(query.body, allFacts, bs) && r == KindOf(kind, eval, query.expressions, bs);
    forall m
      ensures m in bs <==> Matched(query, facts, m)
    {
      ListedAreMatched(query, allFacts, facts, bs, m);
    }
    KindMeans(eval, query.expressions, bs, false);
    assert bs != [] ==> bs[0] in bs;
  }

  /** When no expression errs, a check gives exactly what its kind means over the facts it sees,
      in whatever order they come. */
  lemma {:induction false} VerifyMeans(kind: CheckKind, eval: Eval, queries: seq<DRule>, blockScopes: seq<Scope>,
                                       block: BlockId, registry: Registry, facts: set<DFact>, passing: bool,
                                       r: Option<bool>)
    requires forall q :: q in queries ==> ErrorFree(eval, q, Seen(q, blockScopes, block, registry, facts))
    requires CanVerifyFrom(kind, eval, queries, blockScopes, block, registry, facts, passing, r)
    requires kind == CheckOne ==> !passing
    ensures kind == CheckOne ==> r == Some(CheckMeaning(kind, eval, queries, blockScopes, block, registry, facts))
    ensures kind != CheckOne ==>
              r == Some(passing && CheckMeaning(kind, eval, queries, blockScopes, block, registry, facts))
    decreases |queries|
  {
    hide ErrorFree, CanQuery, QueryMeaning, Seen;
    if queries != [] {
      var visible := Seen(queries[0], blockScopes, block, registry, facts);
      assert queries[0] in queries;
      var q :| CanQuery(kind, eval, queries[0], visible, q)
               && match q
                  case None => r == None
                  case Some(b) =>
                    if kind == CheckOne && b then r == Some(true)
                    else CanVerifyFrom(kind, eval, queries[1..], blockScopes, block, registry, facts,
                                       if kind == CheckOne then passing else passing && b, r);
      QueryMeans(kind, eval, queries[0], visible, q);
      if !(kind == CheckOne && q.value) {
        VerifyMeans(kind, eval, queries[1..], blockScopes, block, registry, facts,
                    if kind == CheckOne then passing else passing && q.value, r);
        if kind == CheckOne && CheckMeaning(kind, eval, queries[1..], blockScopes, block, registry, facts) {
          var i :| 0 <= i < |queries[1..]|
                   && QueryMeaning(kind, eval, queries[1..][i],
                                   Seen(queries[1..][i], blockScopes, block, registry, facts));
          assert queries[i + 1] == queries[1..][i];
        }
        assert forall i :: 0 < i < |queries| ==> queries[i] == queries[1..][i - 1];
      }
    }
  }

  /** For one query with one expression, `reject if` is the negation of `check if`. */
  lemma RejectNegatesOne(eval: Eval, query: DRule, facts: set<DFact>)
    requires |query.expressions| == 1
    ensures QueryMeaning(CheckReject, eval, query, facts) <==> !QueryMeaning(CheckOne, eval, query, facts)
  {
    hide Matched;
    var e := query.expressions[0];
    forall m
      ensures SomeTrue(eval, query.expressions, m) <==> AllTrue(eval, query.expressions, m)
    {
      assert e in query.expressions;
    }
  }

  /** Some match of the query has an expression that is true on it. */
  ghost predicate FindsTrue(eval: Eval, query: DRule, facts: set<DFact>) {
    exists m :: Matched(query, facts, m) && SomeTrue(eval, query.expressions, m)
  }

  ghost predicate HasMatch(query: DRule, facts: set<DFact>) {
    exists m :: Matched(query, facts, m)
  }

  /** `reject if` is the negation of `check if` on a query exactly when, without expressions, it has no
      match, and, with expressions, some match has all of them true as soon as some match has one true. */
  lemma RejectNegatesOneIff(eval: Eval, query: DRule, facts: set<DFact>)
    ensures (QueryMeaning(CheckReject, eval, query, facts) <==> !QueryMeaning(CheckOne, eval, query, facts))
            <==> if query.expressions == [] then !HasMatch(query, facts)
                 else FindsTrue(eval, query, facts) ==> QueryMeaning(CheckOne, eval, query, facts)
  {
    hide Matched;
    forall m
      ensures AllTrue(eval, query.expressions, m) ==> query.expressions == [] || SomeTrue(eval, query.expressions, m)
      ensures query.expressions == [] ==> AllTrue(eval, query.expressions, m) && !SomeTrue(eval, query.expressions, m)
    {
      assert query.expressions != [] ==> query.expressions[0] in query.expressions;
    }
    hide AllTrue, SomeTrue;
  }

  /** A query with no expressions never rejects, although `check if` holds of it whenever it
      has a match: a match alone does not make `reject if` fail. */
  lemma RejectNeedsExpressions(eval: Eval, query: DRule, facts: set<DFact>)
    requires query.expressions == []
    ensures QueryMeaning(CheckReject, eval, query, facts)
    ensures QueryMeaning(CheckOne, eval, query, facts) <==> exists m :: Matched(query, facts, m)
  {
    hide Matched;
    forall m
      ensures AllTrue(eval, query.expressions, m)
    {
    }
  }
}
