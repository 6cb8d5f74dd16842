/** The authorizer of authorizer.go: run the rules, then the checks, then the first policy
    with an answer. */
module Authorization {
  import opened Wrappers
  import opened Types
  import opened Datalog
  import opened Evaluation
  import opened Iteration
  import opened Worlds
  import opened Scopes
  import opened Checks

  datatype PolicyKind = Allow | Deny

  datatype Policy = Policy(queries: seq<DRule>, kind: PolicyKind)

  /** The scopes and checks of one block of the token. */
  datatype BlockChecks = BlockChecks(scopes: seq<Scope>, checks: seq<DCheck>)

  /** What Build leaves for Authorize beside the world. */
  datatype Setup = Setup(registry: Registry, scopes: seq<Scope>, checks: seq<DCheck>, policies: seq<Policy>,
                         blocks: seq<BlockChecks>)

  datatype Decision = Allowed | Denied | NoPolicy | ChecksFailed | QueryFailed | RunFailed(outcome: Outcome)

  /** The answer to some queries, asked in order until one has an answer: None is an error. */
  function Answer(eval: Eval, queries: seq<DRule>, scopes: seq<Scope>, registry: Registry,
                  facts: set<DFact>): Option<bool>
    decreases |queries|
  {
    if queries == [] then Some(false)
    else
      var visible := Seen(queries[0], scopes, AUTHORIZER, registry, facts);
      if Errs(eval, queries[0], AUTHORIZER, visible) then None
      else if Derived(eval, queries[0], AUTHORIZER, visible) != {} then Some(true)
      else Answer(eval, queries[1..], scopes, registry, facts)
  }

  /** The first policy with an answer decides. Policies have no block scopes to fall back on. */
  function Decide(eval: Eval, policies: seq<Policy>, registry: Registry, facts: set<DFact>): Decision
    decreases |policies|
  {
    if policies == [] then NoPolicy
    else
      match Answer(eval, policies[0].queries, [], registry, facts)
      case None => QueryFailed
      case Some(true) => if policies[0].kind == Allow then Allowed else Denied
      case Some(false) => Decide(eval, policies[1..], registry, facts)
  }

  // ---- What answers and decisions mean ----

  /** Query i is asked: those before it find nothing and do not err. */
  ghost predicate Asked(eval: Eval, queries: seq<DRule>, scopes: seq<Scope>, registry: Registry, facts: set<DFact>,
                        i: nat)
  {
    i < |queries|
    && forall j :: 0 <= j < i ==>
         var visible := Seen(queries[j], scopes, AUTHORIZER, registry, facts);
         !Errs(eval, queries[j], AUTHORIZER, visible) && Derived(eval, queries[j], AUTHORIZER, visible) == {}
  }

  /** Query i errs over the facts it sees. */
  ghost predicate QueryErrs(eval: Eval, queries: seq<DRule>, scopes: seq<Scope>, registry: Registry, facts: set<DFact>,
                            i: nat)
    requires i < |queries|
  {
    Errs(eval, queries[i], AUTHORIZER, Seen(queries[i], scopes, AUTHORIZER, registry, facts))
  }

  /** Query i finds something. */
  ghost predicate QueryFinds(eval: Eval, queries: seq<DRule>, scopes: seq<Scope>, registry: Registry, facts: set<DFact>,
                             i: nat)
    requires i < |queries|
  {
    Derived(eval, queries[i], AUTHORIZER, Seen(queries[i], scopes, AUTHORIZER, registry, facts)) != {}
  }

  /** The answer is true, or an error, exactly when the first query that finds something or errs
      finds something, or errs; otherwise it is false. */
  lemma {:induction false} AnswerMeans(eval: Eval, queries: seq<DRule>, scopes: seq<Scope>, registry: Registry,
                                       facts: set<DFact>)
    ensures var a := Answer(eval, queries, scopes, registry, facts);
            && (a == None <==> exists i :: Asked(eval, queries, scopes, registry, facts, i)
                                           && QueryErrs(eval, queries, scopes, registry, facts, i))
            && (a == Some(true) <==> exists i :: Asked(eval, queries, scopes, registry, facts, i)
                                                 && !QueryErrs(eval, queries, scopes, registry, facts, i)
                                                 && QueryFinds(eval, queries, scopes, registry, facts, i))
    decreases |queries|
  {
    hide Seen, Errs, Derived;
    if queries != [] {
      var visible := Seen(queries[0], scopes, AUTHORIZER, registry, facts);
      assert Asked(eval, queries, scopes, registry, facts, 0);
      if !Errs(eval, queries[0], AUTHORIZER, visible) && Derived(eval, queries[0], AUTHORIZER, visible) == {} {
        var rest := queries[1..];
        AnswerMeans(eval, rest, scopes, registry, facts);
        forall i: nat | i < |rest|
          ensures Asked(eval, rest, scopes, registry, facts, i) <==>
                  Asked(eval, queries, scopes, registry, facts, i + 1)
          ensures QueryErrs(eval, rest, scopes, registry, facts, i)
                  <==> QueryErrs(eval, queries, scopes, registry, facts, i + 1)
          ensures QueryFinds(eval, rest, scopes, registry, facts, i)
                  <==> QueryFinds(eval, queries, scopes, registry, facts, i + 1)
        {
          AskedLater(eval, queries, scopes, registry, facts, i);
        }
        forall i: nat | 0 < i < |queries|
          ensures Asked(eval, rest, scopes, registry, facts, i - 1) <==>
                  Asked(eval, queries, scopes, registry, facts, i)
        {
          AskedLater(eval, queries, scopes, registry, facts, i - 1);
        }
      }
    }
  }

  lemma AskedLater(eval: Eval, queries: seq<DRule>, scopes: seq<Scope>, registry: Registry, facts: set<DFact>, i: nat)
    requires i + 1 < |queries| && Asked(eval, queries, scopes, registry, facts, 1)
    ensures Asked(eval, queries[1..], scopes, registry, facts, i) <==>
            Asked(eval, queries, scopes, registry, facts, i + 1)
  {
    hide Seen, Errs, Derived;
    var rest := queries[1..];
    if Asked(eval, rest, scopes, registry, facts, i) {
      forall j | 0 <= j < i + 1
        ensures var visible := Seen(queries[j], scopes, AUTHORIZER, registry, facts);
                !Errs(eval, queries[j], AUTHORIZER, visible) && Derived(eval, queries[j], AUTHORIZER, visible) == {}
      {
        assert j > 0 ==> rest[j - 1] == queries[j];
      }
    }
  }

  /** The answer to the queries of policy i. */
  function PolicyAnswer(eval: Eval, policies: seq<Policy>, registry: Registry, facts: set<DFact>, i: nat): Option<bool>
    requires i < |policies|
  {
    Answer(eval, policies[i].queries, [], registry, facts)
  }

  /** No policy before policy i has an answer, and none of them errs. */
  ghost predicate Reached(eval: Eval, policies: seq<Policy>, registry: Registry, facts: set<DFact>, i: nat) {
    i <= |policies| && forall j :: 0 <= j < i ==> PolicyAnswer(eval, policies, registry, facts, j) == Some(false)
  }

  /** Policy i is the first whose queries have this answer, all before it having none. */
  ghost predicate DecidesAt(eval: Eval, policies: seq<Policy>, registry: Registry, facts: set<DFact>, i: nat,
                            answer: Option<bool>)
  {
    && i < |policies| && Reached(eval, policies, registry, facts, i)
    && PolicyAnswer(eval, policies, registry, facts, i) == answer
  }

  /** What a policy decides with its answer. */
  function Verdict(policy: Policy, answer: Option<bool>): Decision
    requires answer != Some(false)
  {
    if answer.None? then QueryFailed else if policy.kind == Allow then Allowed else Denied
  }

  /** The policy that decides, if there is one. */
  lemma {:induction false} DecidingPolicy(eval: Eval, policies: seq<Policy>, registry: Registry, facts: set<DFact>)
    returns (i: nat)
    ensures i <= |policies| && Reached(eval, policies, registry, facts, i)
    ensures i == |policies| ==> Decide(eval, policies, registry, facts) == NoPolicy
    ensures i < |policies| ==>
              && PolicyAnswer(eval, policies, registry, facts, i) != Some(false)
              && Decide(eval, policies, registry, facts)
                 == Verdict(policies[i], PolicyAnswer(eval, policies, registry, facts, i))
    decreases |policies|
  {
    hide Answer, Reached;
    if policies == [] || Answer(eval, policies[0].queries, [], registry, facts) != Some(false) {
      i := 0;
      FirstIsReached(eval, policies, registry, facts);
    } else {
      var k := DecidingPolicy(eval, policies[1..], registry, facts);
      ReachedLater(eval, policies, registry, facts, k);
      i := k + 1;
    }
  }

  lemma FirstIsReached(eval: Eval, policies: seq<Policy>, registry: Registry, facts: set<DFact>)
    ensures Reached(eval, policies, registry, facts, 0)
  {
  }

  /** The request is allowed, or denied, exactly when the first policy with an answer is of that
      kind; a query fails when it errs before any policy has an answer. */
  lemma DecideMeans(eval: Eval, policies: seq<Policy>, registry: Registry, facts: set<DFact>)
    ensures var d := Decide(eval, policies, registry, facts);
            && (d == Allowed <==>
                  exists i: nat ::
                    DecidesAt(eval, policies, registry, facts, i, Some(true)) && policies[i].kind == Allow)
            && (d == Denied <==>
                  exists i: nat ::
                    DecidesAt(eval, policies, registry, facts, i, Some(true)) && policies[i].kind == Deny)
            && (d == QueryFailed <==> exists i: nat :: DecidesAt(eval, policies, registry, facts, i, None))
            && (d == NoPolicy <==> Reached(eval, policies, registry, facts, |policies|))
  {
    hide Decide, PolicyAnswer;
    var i := DecidingPolicy(eval, policies, registry, facts);
    if i < |policies| {
      var a := PolicyAnswer(eval, policies, registry, facts, i);
      assert DecidesAt(eval, policies, registry, facts, i, a);
      if a.Some? && a.value {
        assert a == Some(true) && DecidesAt(eval, policies, registry, facts, i, Some(true));
      }
      forall j: nat | i < j <= |policies|
        ensures !Reached(eval, policies, registry, facts, j)
      {
      }
      forall j: nat, b | DecidesAt(eval, policies, registry, facts, j, b) && b != Some(false)
        ensures j == i && b == a
      {
        assert j >= i;
      }
    } else {
      forall j: nat, b | DecidesAt(eval, policies, registry, facts, j, b)
        ensures b == Some(false)
      {
      }
    }
  }

  lemma ReachedLater(eval: Eval, policies: seq<Policy>, registry: Registry, facts: set<DFact>, i: nat)
    requires policies != [] && PolicyAnswer(eval, policies, registry, facts, 0) == Some(false) && i < |policies|
    ensures Reached(eval, policies[1..], registry, facts, i) <==> Reached(eval, policies, registry, facts, i + 1)
  {
    hide Answer;
    var rest := policies[1..];
    forall j: nat | j < |rest|
      ensures PolicyAnswer(eval, rest, registry, facts, j) == PolicyAnswer(eval, policies, registry, facts, j + 1)
    {
    }
    if Reached(eval, rest, registry, facts, i) {
      forall j | 0 <= j < i + 1
        ensures PolicyAnswer(eval, policies, registry, facts, j) == Some(false)
      {
        assert j > 0 ==> PolicyAnswer(eval, rest, registry, facts, j - 1) == Some(false);
      }
    }
    if Reached(eval, policies, registry, facts, i + 1) {
      forall j | 0 <= j < i
        ensures PolicyAnswer(eval, rest, registry, facts, j) == Some(false)
      {
        assert PolicyAnswer(eval, policies, registry, facts, j + 1) == Some(false);
      }
    }
  }

  // ---- What authorization can and must come to ----

  /** The verdict on the authorizer's own checks: an error in any of them shows, whatever the others say. */
  ghost function OwnVerdict(eval: Eval, setup: Setup, facts: set<DFact>): Option<bool> {
    if exists c :: c in setup.checks && Answer(eval, c.queries, setup.scopes, setup.registry, facts) == None then None
    else Some(AuthorizerChecksPass(eval, setup, facts))
  }

  /** Some check of some block can come to r, for some order of the facts it sees. */
  ghost predicate BlockChecksCan(eval: Eval, setup: Setup, facts: set<DFact>, r: Option<bool>) {
    exists i, c :: 0 <= i < |setup.blocks| && c in setup.blocks[i].checks && i < AUTHORIZER
                   && CanVerify(eval, c, setup.blocks[i].scopes, i, setup.registry, facts, r)
  }

  /** The check can come to a verdict that is no error, for some order of the facts it sees. */
  ghost predicate CanAnswer(eval: Eval, check: DCheck, blockScopes: seq<Scope>, block: BlockId, registry: Registry,
                            facts: set<DFact>)
  {
    exists b :: CanVerify(eval, check, blockScopes, block, registry, facts, Some(b))
  }

  /** Every check of every block can. */
  ghost predicate BlockChecksCanAnswer(eval: Eval, setup: Setup, facts: set<DFact>) {
    forall i, c :: 0 <= i < |setup.blocks| && c in setup.blocks[i].checks && i < AUTHORIZER ==>
      CanAnswer(eval, c, setup.blocks[i].scopes, i, setup.registry, facts)
  }

  /** Authorizer checks are queries whatever their kind. */
  ghost predicate AuthorizerChecksPass(eval: Eval, setup: Setup, facts: set<DFact>) {
    forall c :: c in setup.checks ==> Answer(eval, c.queries, setup.scopes, setup.registry, facts) == Some(true)
  }

  /** Every check of every block can pass, for some order of the facts it sees. */
  ghost predicate BlockChecksCanPass(eval: Eval, setup: Setup, facts: set<DFact>) {
    forall i, c :: 0 <= i < |setup.blocks| && c in setup.blocks[i].checks && i < AUTHORIZER ==>
      CanVerify(eval, c, setup.blocks[i].scopes, i, setup.registry, facts, Some(true))
  }

  /** Every check of every block passes, whatever the order of the facts it sees. */
  ghost predicate BlockChecksMustPass(eval: Eval, setup: Setup, facts: set<DFact>) {
    forall i, c, r :: 0 <= i < |setup.blocks| && c in setup.blocks[i].checks && i < AUTHORIZER
                      && CanVerify(eval, c, setup.blocks[i].scopes, i, setup.registry, facts, r) ==>
      r == Some(true)
  }

  /** The request can be allowed, for some order of facts. */
  ghost predicate CanAllow(eval: Eval, limits: Limits, rules: set<TrustedRule>, start: set<DFact>, setup: Setup) {
    var (outcome, facts) := RunOf(eval, rules, start, limits);
    && outcome.Done?
    && AuthorizerChecksPass(eval, setup, facts)
    && BlockChecksCanPass(eval, setup, facts)
    && Decide(eval, setup.policies, setup.registry, facts) == Allowed
  }

  /** The request is allowed, whatever the order of facts. */
  ghost predicate MustAllow(eval: Eval, limits: Limits, rules: set<TrustedRule>, start: set<DFact>, setup: Setup) {
    var (outcome, facts) := RunOf(eval, rules, start, limits);
    && outcome.Done?
    && AuthorizerChecksPass(eval, setup, facts)
    && BlockChecksMustPass(eval, setup, facts)
    && Decide(eval, setup.policies, setup.registry, facts) == Allowed
  }

  /** The checks of all blocks together can come to r: an error in any of them ends the loop. */
  ghost predicate BlockVerdict(eval: Eval, setup: Setup, facts: set<DFact>, r: Option<bool>) {
    match r
    case None => BlockChecksCan(eval, setup, facts, None)
    case Some(true) => BlockChecksCanPass(eval, setup, facts)
    case Some(false) => BlockChecksCanAnswer(eval, setup, facts) && BlockChecksCan(eval, setup, facts, Some(false))
  }

  /** After a run that succeeds, d is what the request can come to. */
  ghost predicate CanDecide(eval: Eval, setup: Setup, facts: set<DFact>, d: Decision) {
    var own := OwnVerdict(eval, setup, facts);
    if own == None then d == QueryFailed
    else
      || (d == QueryFailed && BlockChecksCan(eval, setup, facts, None))
      || (d == ChecksFailed && BlockChecksCanAnswer(eval, setup, facts)
          && (own == Some(false) || BlockChecksCan(eval, setup, facts, Some(false))))
      || (d == Decide(eval, setup.policies, setup.registry, facts)
          && own == Some(true) && BlockChecksCanPass(eval, setup, facts))
  }

  /** After a run that succeeds, the request comes to x, whatever the order of facts. */
  ghost predicate MustDecide(eval: Eval, setup: Setup, facts: set<DFact>, x: Decision) {
    forall d :: CanDecide(eval, setup, facts, d) ==> d == x
  }

  /** Each check of a block can come to an error or to an answer, and no check can be passed by all that
      it can answer and fail by some of it. */
  lemma BlockChecksComeTo(eval: Eval, setup: Setup, facts: set<DFact>)
    ensures BlockChecksCanAnswer(eval, setup, facts) || BlockChecksCan(eval, setup, facts, None)
    ensures BlockChecksCanAnswer(eval, setup, facts) ==>
              BlockChecksCanPass(eval, setup, facts) || BlockChecksCan(eval, setup, facts, Some(false))
    ensures BlockChecksCanPass(eval, setup, facts) ==> BlockChecksCanAnswer(eval, setup, facts)
    ensures BlockChecksMustPass(eval, setup, facts) <==>
              && BlockChecksCanPass(eval, setup, facts)
              && !BlockChecksCan(eval, setup, facts, None) && !BlockChecksCan(eval, setup, facts, Some(false))
  {
    hide CanVerifyFrom;
    forall i, c | 0 <= i < |setup.blocks| && c in setup.blocks[i].checks && i < AUTHORIZER
      ensures exists r :: CanVerify(eval, c, setup.blocks[i].scopes, i, setup.registry, facts, r)
    {
      var r := CheckComesTo(c.kind, eval, c.queries, setup.blocks[i].scopes, i, setup.registry, facts,
                            c.kind != CheckOne);
      assert CanVerify(eval, c, setup.blocks[i].scopes, i, setup.registry, facts, r);
    }
    hide CanVerify;
    forall i, c | 0 <= i < |setup.blocks| && c in setup.blocks[i].checks && i < AUTHORIZER
      ensures CanAnswer(eval, c, setup.blocks[i].scopes, i, setup.registry, facts)
              || CanVerify(eval, c, setup.blocks[i].scopes, i, setup.registry, facts, None)
      ensures CanAnswer(eval, c, setup.blocks[i].scopes, i, setup.registry, facts) ==>
                || CanVerify(eval, c, setup.blocks[i].scopes, i, setup.registry, facts, Some(true))
                || CanVerify(eval, c, setup.blocks[i].scopes, i, setup.registry, facts, Some(false))
    {
      var r :| CanVerify(eval, c, setup.blocks[i].scopes, i, setup.registry, facts, r);
      ThreeVerdicts(r);
    }
    forall i, c, r | 0 <= i < |setup.blocks| && c in setup.blocks[i].checks && i < AUTHORIZER
                     && CanVerify(eval, c, setup.blocks[i].scopes, i, setup.registry, facts, r)
      ensures r == None || r == Some(true) || r == Some(false)
    {
      ThreeVerdicts(r);
    }
  }

  /** Some decision is always possible. */
  lemma SomethingDecided(eval: Eval, setup: Setup, facts: set<DFact>)
    ensures exists d :: CanDecide(eval, setup, facts, d)
  {
    BlockChecksComeTo(eval, setup, facts);
    hide Decide, OwnVerdict, BlockChecksCan, BlockChecksCanAnswer, BlockChecksCanPass;
    var own := OwnVerdict(eval, setup, facts);
    ThreeVerdicts(own);
    assert CanDecide(eval, setup, facts, QueryFailed) || CanDecide(eval, setup, facts, ChecksFailed)
           || CanDecide(eval, setup, facts, Decide(eval, setup.policies, setup.registry, facts));
  }

  /** When each decision is forced. */
  lemma MustDecideMeans(eval: Eval, setup: Setup, facts: set<DFact>)
    ensures var own, policy := OwnVerdict(eval, setup, facts), Decide(eval, setup.policies, setup.registry, facts);
            && (MustDecide(eval, setup, facts, QueryFailed) <==>
                  || own == None || !BlockChecksCanAnswer(eval, setup, facts)
                  || (own == Some(true) && policy == QueryFailed
                      && !BlockChecksCan(eval, setup, facts, Some(false))))
            && (MustDecide(eval, setup, facts, ChecksFailed) <==>
                  && own.Some? && !BlockChecksCan(eval, setup, facts, None)
                  && (own == Some(false) || !BlockChecksCanPass(eval, setup, facts)))
            && forall d :: d in {Allowed, Denied, NoPolicy} ==>
                 (MustDecide(eval, setup, facts, d) <==>
                    own == Some(true) && BlockChecksMustPass(eval, setup, facts) && policy == d)
  {
    BlockChecksComeTo(eval, setup, facts);
    DecideIsNoFailure(eval, setup.policies, setup.registry, facts);
    hide Decide, OwnVerdict, BlockChecksCan, BlockChecksCanAnswer, BlockChecksCanPass, BlockChecksMustPass;
    var policy := Decide(eval, setup.policies, setup.registry, facts);
    ThreeVerdicts(OwnVerdict(eval, setup, facts));
    var q, c, p := CanDecide(eval, setup, facts, QueryFailed), CanDecide(eval, setup, facts, ChecksFailed),
                   CanDecide(eval, setup, facts, policy);
    assert forall d :: CanDecide(eval, setup, facts, d) ==> d == QueryFailed || d == ChecksFailed || d == policy;
    assert MustDecide(eval, setup, facts, QueryFailed) <==> !c && (p ==> policy == QueryFailed);
    assert MustDecide(eval, setup, facts, ChecksFailed) <==> !q && !p;
  }

  /** A block check that errs in every order makes the query fail, whatever the other checks come to. */
  lemma ErringCheckDecides(eval: Eval, setup: Setup, facts: set<DFact>, i: BlockId, c: DCheck)
    requires i < |setup.blocks| && i < AUTHORIZER && c in setup.blocks[i].checks
    requires !CanAnswer(eval, c, setup.blocks[i].scopes, i, setup.registry, facts)
    ensures MustDecide(eval, setup, facts, QueryFailed)
  {
    MustDecideMeans(eval, setup, facts);
    hide CanAnswer, OwnVerdict, Decide, MustDecide;
  }

  /** An own check that errs makes the query fail, whatever else fails; if none errs, one that finds nothing makes the
      checks fail, unless a block check errs. */
  lemma OwnCheckDecides(eval: Eval, setup: Setup, facts: set<DFact>, c: DCheck)
    requires c in setup.checks
    ensures Answer(eval, c.queries, setup.scopes, setup.registry, facts) == None ==>
              MustDecide(eval, setup, facts, QueryFailed)
    ensures (forall d :: d in setup.checks ==> Answer(eval, d.queries, setup.scopes, setup.registry, facts) != None)
            && Answer(eval, c.queries, setup.scopes, setup.registry, facts) == Some(false) ==>
              && (forall d :: CanDecide(eval, setup, facts, d) ==> d == ChecksFailed || d == QueryFailed)
              && (!BlockChecksCan(eval, setup, facts, None) ==> MustDecide(eval, setup, facts, ChecksFailed))
  {
    MustDecideMeans(eval, setup, facts);
    hide Answer, BlockChecksCan, BlockChecksCanAnswer, BlockChecksCanPass, BlockChecksMustPass, Decide;
  }

  /** Allowing is one of the decisions. */
  lemma AllowIsDecided(eval: Eval, limits: Limits, rules: set<TrustedRule>, start: set<DFact>, setup: Setup)
    ensures var (outcome, facts) := RunOf(eval, rules, start, limits);
            && (CanAllow(eval, limits, rules, start, setup) <==>
                  outcome.Done? && CanDecide(eval, setup, facts, Allowed))
            && (MustAllow(eval, limits, rules, start, setup) <==>
                  outcome.Done? && MustDecide(eval, setup, facts, Allowed))
  {
    var facts := RunOf(eval, rules, start, limits).1;
    MustDecideMeans(eval, setup, facts);
    OwnVerdictPasses(eval, setup, facts);
    hide RunOf, OwnVerdict, AuthorizerChecksPass, Decide, MustDecide, BlockChecksCanPass, BlockChecksMustPass;
  }

  lemma OwnVerdictPasses(eval: Eval, setup: Setup, facts: set<DFact>)
    ensures OwnVerdict(eval, setup, facts) == Some(true) <==> AuthorizerChecksPass(eval, setup, facts)
  {
    hide Answer;
  }

  lemma {:induction false} DecideIsNoFailure(eval: Eval, policies: seq<Policy>, registry: Registry, facts: set<DFact>)
    ensures var d := Decide(eval, policies, registry, facts); !d.RunFailed? && !d.ChecksFailed?
    decreases |policies|
  {
    hide Answer;
    if policies != [] {
      DecideIsNoFailure(eval, policies[1..], registry, facts);
    }
  }

  class Authorizer {
    const world: World
    const setup: Setup

    constructor (world: World, setup: Setup)
      ensures this.world == world && this.setup == setup
    {
      this.world, this.setup := world, setup;
    }

    /** World.QueryRule over a query's trusted facts; None is an error. */
    method QueryRule(query: DRule, scopes: seq<Scope>) returns (r: Option<set<DFact>>)
      ensures var visible := Seen(query, scopes, AUTHORIZER, setup.registry, world.facts);
              && (r.None? <==> Errs(world.eval, query, AUTHORIZER, visible))
              && (r.Some? ==> r.value == Derived(world.eval, query, AUTHORIZER, visible))
    {
      var trusted := NewTrustedOriginFromScopes(scopes, query.scopes, AUTHORIZER, setup.registry);
      var listed := ListFacts(Visible(world.facts, trusted));
      r := Apply(world.eval, query, AUTHORIZER, listed, Visible(world.facts, trusted));
    }

    /** The query loop of a check or a policy. */
    method FirstAnswer(queries: seq<DRule>, scopes: seq<Scope>) returns (r: Option<bool>)
      ensures r == Answer(world.eval, queries, scopes, setup.registry, world.facts)
    {
      for i := 0 to |queries|
        invariant Answer(world.eval, queries, scopes, setup.registry, world.facts)
                  == Answer(world.eval, queries[i..], scopes, setup.registry, world.facts)
      {
        var res := QueryRule(queries[i], scopes);
        if res.None? {
          return None;
        }
        if res.value != {} {
          return Some(true);
        }
      }
      r := Some(false);
    }

    /** The authorizer's own checks: whether all passed, or None on an error. */
    method RunAuthorizerChecks() returns (r: Option<bool>)
      ensures r == OwnVerdict(world.eval, setup, world.facts)
    {
      hide Answer;
      var successful := true;
      for i := 0 to |setup.checks|
        invariant forall j :: 0 <= j < i ==>
                    Answer(world.eval, setup.checks[j].queries, setup.scopes, setup.registry, world.facts) != None
        invariant successful <==> forall j :: 0 <= j < i ==>
                    Answer(world.eval, setup.checks[j].queries, setup.scopes, setup.registry, world.facts) == Some(true)
      {
        var one := FirstAnswer(setup.checks[i].queries, setup.scopes);
        if one.None? {
          assert setup.checks[i] in setup.checks;
          return None;
        }
        successful := successful && one.value;
      }
      r := Some(successful);
    }

    /** The checks of the token's blocks: whether all passed, or None on an error. */
    method RunBlockChecks() returns (r: Option<bool>)
      requires |setup.blocks| < AUTHORIZER
      ensures BlockVerdict(world.eval, setup, world.facts, r)
      ensures BlockChecksMustPass(world.eval, setup, world.facts) ==> r == Some(true)
    {
      hide CanVerify;
      var successful := true;
      for i := 0 to |setup.blocks|
        invariant forall k, c :: 0 <= k < i && c in setup.blocks[k].checks ==>
                    CanAnswer(world.eval, c, setup.blocks[k].scopes, k, setup.registry, world.facts)
        invariant successful ==> forall k, c :: 0 <= k < i && c in setup.blocks[k].checks ==>
                    CanVerify(world.eval, c, setup.blocks[k].scopes, k, setup.registry, world.facts, Some(true))
        invariant !successful ==> BlockChecksCan(world.eval, setup, world.facts, Some(false))
      {
        var block := setup.blocks[i];
        for j := 0 to |block.checks|
          invariant forall c :: c in block.checks[..j] ==>
                      CanAnswer(world.eval, c, block.scopes, i, setup.registry, world.facts)
          invariant successful ==> forall k, c :: 0 <= k < i && c in setup.blocks[k].checks ==>
                      CanVerify(world.eval, c, setup.blocks[k].scopes, k, setup.registry, world.facts, Some(true))
          invariant successful ==> forall c :: c in block.checks[..j] ==>
                      CanVerify(world.eval, c, block.scopes, i, setup.registry, world.facts, Some(true))
          invariant !successful ==> BlockChecksCan(world.eval, setup, world.facts, Some(false))
        {
          assert block.checks[..j + 1] == block.checks[..j] + [block.checks[j]];
          assert block.checks[j] in setup.blocks[i].checks;
          var one := Verify(world.eval, block.checks[j], world.facts, block.scopes, i, setup.registry);
          if one.None? {
            return None;
          }
          successful := successful && one.value;
        }
        assert block.checks[..|block.checks|] == block.checks;
      }
      r := Some(successful);
    }

    /** The policy loop. */
    method RunPolicies() returns (d: Decision)
      ensures d == Decide(world.eval, setup.policies, setup.registry, world.facts)
    {
      var policies := setup.policies;
      for i := 0 to |policies|
        invariant Decide(world.eval, policies, setup.registry, world.facts)
                  == Decide(world.eval, policies[i..], setup.registry, world.facts)
      {
        var answer := FirstAnswer(policies[i].queries, []);
        match answer
        case None => return QueryFailed;
        case Some(true) =>
          match policies[i].kind {
            case Allow => return Allowed;
            case Deny => return Denied;
          }
        case Some(false) =>
      }
      d := NoPolicy;
    }

    /** Authorize. What it comes to can depend on the order of facts only through the checks of blocks. */
    method Authorize() returns (d: Decision)
      requires |setup.blocks| < AUTHORIZER
      modifies world`facts
      ensures world.facts == RunOf(world.eval, world.rules, old(world.facts), world.limits).1
      ensures var outcome := RunOf(world.eval, world.rules, old(world.facts), world.limits).0;
              if !outcome.Done? then d == RunFailed(outcome) else CanDecide(world.eval, setup, world.facts, d)
      ensures d == Allowed ==> CanAllow(world.eval, world.limits, world.rules, old(world.facts), setup)
      ensures MustAllow(world.eval, world.limits, world.rules, old(world.facts), setup) ==> d == Allowed
    {
      hide Decide, AuthorizerChecksPass, BlockChecksCanPass, BlockChecksMustPass, BlockChecksCan,
           BlockChecksCanAnswer, RunOf, OwnVerdict;
      var outcome := world.Run();
      if !outcome.Done? {
        return RunFailed(outcome);
      }
      DecideIsNoFailure(world.eval, setup.policies, setup.registry, world.facts);
      OwnVerdictPasses(world.eval, setup, world.facts);
      BlockChecksComeTo(world.eval, setup, world.facts);
      var own := RunAuthorizerChecks();
      if own.None? {
        return QueryFailed;
      }
      var blocks := RunBlockChecks();
      if blocks.None? {
        return QueryFailed;
      }
      if !own.value || !blocks.value {
        return ChecksFailed;
      }
      d := RunPolicies();
    }
  }
}
