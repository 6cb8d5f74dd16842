/** What a token that is allowed was loaded with, and what of it held (authorizer.go). */
module Admission {
  import opened Wrappers
  import opened Types
  import opened Datalog
  import opened Worlds
  import opened Scopes
  import opened Checks
  import opened Authorization
  import opened Verdicts
  import opened Attenuation

  // ---- What is loaded ----

  /** The run starts from the facts of every block under its id, and from those of the authorizer under its own. */
  lemma StartFactsExact(blocks: seq<Block>, own: Own, f: DFact)
    requires |blocks| <= AUTHORIZER
    ensures f in StartFacts(blocks, own) <==>
              || (exists i :: 0 <= i < |blocks| && f.origin == {i} && f.fact in blocks[i].facts)
              || (f.origin == {AUTHORIZER} && f.fact in own.facts)
  {
    BlockFactsExact(blocks, f);
  }

  lemma {:induction false} BlockFactsExact(blocks: seq<Block>, f: DFact)
    requires |blocks| <= AUTHORIZER
    ensures f in BlockFacts(blocks) <==> exists i :: 0 <= i < |blocks| && f.origin == {i} && f.fact in blocks[i].facts
    decreases |blocks|
  {
    if blocks != [] {
      var n := |blocks| - 1;
      BlockFactsExact(blocks[..n], f);
      assert f in FactsFrom(n, blocks[n].facts) <==> f.origin == {n} && f.fact in blocks[n].facts;
      hide FactsFrom;
    }
  }

  /** The rules of the world are those of every block and of the authorizer, each under its id and with the trusted
      origin that its own scopes, or else those of its block, define. */
  lemma WorldRulesExact(blocks: seq<Block>, own: Own, tr: TrustedRule)
    requires |blocks| <= AUTHORIZER
    ensures tr in WorldRules(blocks, own) <==>
              || (exists i :: 0 <= i < |blocks| && tr.block == i && tr.rule in blocks[i].rules
                              && tr.trusted
                                 == TrustedFromScopes(blocks[i].scopes, tr.rule.scopes, i, blocks[i].registry))
              || (tr.block == AUTHORIZER && tr.rule in own.rules
                  && tr.trusted == TrustedFromScopes(own.scopes, tr.rule.scopes, AUTHORIZER, own.registry))
  {
    BlockRulesExact(blocks, tr);
    hide TrustedFromScopes;
  }

  lemma {:induction false} BlockRulesExact(blocks: seq<Block>, tr: TrustedRule)
    requires |blocks| <= AUTHORIZER
    ensures tr in BlockRules(blocks) <==>
              exists i :: 0 <= i < |blocks| && tr.block == i && tr.rule in blocks[i].rules
                          && tr.trusted == TrustedFromScopes(blocks[i].scopes, tr.rule.scopes, i, blocks[i].registry)
    decreases |blocks|
  {
    hide TrustedFromScopes;
    if blocks != [] {
      var n: BlockId := |blocks| - 1;
      BlockRulesExact(blocks[..n], tr);
      assert tr in RulesFrom(n, blocks[n].rules, blocks[n].scopes, blocks[n].registry) <==>
               && tr.block == n && tr.rule in blocks[n].rules
               && tr.trusted == TrustedFromScopes(blocks[n].scopes, tr.rule.scopes, n, blocks[n].registry);
      hide RulesFrom;
    }
  }

  /** A query sees a fact exactly when every block behind it is one the query trusts. */
  lemma SeenExact(query: DRule, scopes: seq<Scope>, block: BlockId, registry: Registry, facts: set<DFact>, f: DFact)
    ensures f in Seen(query, scopes, block, registry, facts) <==>
              f in facts && forall b :: b in f.origin ==> Trusts(query, scopes, block, registry, b)
  {
    forall b: BlockId
      ensures b in TrustedFromScopes(scopes, query.scopes, block, registry)
              <==> Trusts(query, scopes, block, registry, b)
    {
      TrustedExact(scopes, query.scopes, block, registry, b);
    }
    hide TrustedFromScopes, Trusts;
  }

  /** Itself and the authorizer; by default the authority; otherwise what its scopes, or else those of its block,
      reach. */
  ghost predicate Trusts(query: DRule, scopes: seq<Scope>, block: BlockId, registry: Registry, b: BlockId) {
    || b == AUTHORIZER || b == block
    || (if query.scopes == [] && scopes == [] then b == 0
        else exists s :: s in (if query.scopes == [] then scopes else query.scopes) && Reaches(s, block, registry, b))
  }

  /** A policy sees what a query of the authorizer sees that has no scopes but its own: the scopes of the authorizer do
      not count. */
  lemma PolicyIsQuery(eval: Eval, policy: Policy, query: DRule, registry: Registry, facts: set<DFact>)
    requires policy.queries == [query]
    ensures var visible := Seen(query, [], AUTHORIZER, registry, facts);
            Decide(eval, [policy], registry, facts)
            == if Errs(eval, query, AUTHORIZER, visible) then QueryFailed
               else if Derived(eval, query, AUTHORIZER, visible) == {} then NoPolicy
               else if policy.kind == Allow then Allowed else Denied
  {
    hide Errs, Derived, Seen;
    var rest := policy.queries[1..];
    assert rest == [] && [policy][1..] == [] && policy.queries[0] == query;
    assert Answer(eval, rest, [], registry, facts) == Some(false);
    assert Decide(eval, [], registry, facts) == NoPolicy;
    var a := Answer(eval, policy.queries, [], registry, facts);
    ThreeVerdicts(a);
  }

  // ---- What must have held ----

  /** Every check of the authorizer finds something. */
  ghost predicate OwnChecksPass(eval: Eval, own: Own, facts: set<DFact>) {
    forall c :: c in own.checks ==> Answer(eval, c.queries, own.scopes, own.registry, facts) == Some(true)
  }

  /** A check of block i comes to r. */
  ghost predicate BlockCheckComesTo(eval: Eval, blocks: seq<Block>, own: Own, facts: set<DFact>, i: BlockId, c: DCheck,
                                    r: Option<bool>)
    requires i < |blocks|
  {
    CanVerify(eval, c, blocks[i].scopes, i, own.registry, facts, r)
  }

  lemma BlockChecksIff(eval: Eval, blocks: seq<Block>, own: Own, facts: set<DFact>)
    requires |blocks| < AUTHORIZER
    ensures BlockChecksCanPass(eval, SetupOf(blocks, own), facts) <==>
              forall i: BlockId, c :: i < |blocks| && c in blocks[i].checks ==>
                BlockCheckComesTo(eval, blocks, own, facts, i, c, Some(true))
    ensures BlockChecksMustPass(eval, SetupOf(blocks, own), facts) <==>
              forall i: BlockId, c, r ::
                (i < |blocks| && c in blocks[i].checks && BlockCheckComesTo(eval, blocks, own, facts, i, c, r)) ==>
                  r == Some(true)
  {
    hide CanVerify;
    var setup := SetupOf(blocks, own);
    assert |setup.blocks| == |blocks|;
    forall i: BlockId, c, r | i < |blocks| && c in blocks[i].checks
      ensures c in setup.blocks[i].checks
      ensures BlockCheckComesTo(eval, blocks, own, facts, i, c, r)
              <==> CanVerify(eval, c, setup.blocks[i].scopes, i, setup.registry, facts, r)
    {
    }
    forall i, c, r | 0 <= i < |setup.blocks| && c in setup.blocks[i].checks && i < AUTHORIZER
      ensures c in blocks[i].checks
      ensures BlockCheckComesTo(eval, blocks, own, facts, i, c, r)
              <==> CanVerify(eval, c, setup.blocks[i].scopes, i, setup.registry, facts, r)
    {
    }
    hide SetupOf;
  }

  /** A token can be allowed exactly when, on the facts a successful run leaves, every check of the authorizer passes,
      every check of every block can pass, and the policies allow. */
  lemma TokenCanIff(eval: Eval, limits: Limits, blocks: seq<Block>, own: Own)
    requires |blocks| < AUTHORIZER
    ensures var (outcome, facts) := RunOf(eval, WorldRules(blocks, own), StartFacts(blocks, own), limits);
            TokenCan(eval, limits, blocks, own) <==>
              && outcome.Done? && OwnChecksPass(eval, own, facts)
              && (forall i: BlockId, c :: i < |blocks| && c in blocks[i].checks ==>
                    BlockCheckComesTo(eval, blocks, own, facts, i, c, Some(true)))
              && Decide(eval, own.policies, own.registry, facts) == Allowed
  {
    hide RunOf, WorldRules, StartFacts, CanVerify, Answer, Decide;
    var facts := RunOf(eval, WorldRules(blocks, own), StartFacts(blocks, own), limits).1;
    BlockChecksIff(eval, blocks, own, facts);
    hide BlockChecksCanPass;
  }

  /** It is allowed in every order of the facts exactly when, moreover, no check of a block can come to anything
      else. */
  lemma TokenMustIff(eval: Eval, limits: Limits, blocks: seq<Block>, own: Own)
    requires |blocks| < AUTHORIZER
    ensures var (outcome, facts) := RunOf(eval, WorldRules(blocks, own), StartFacts(blocks, own), limits);
            TokenMust(eval, limits, blocks, own) <==>
              && outcome.Done? && OwnChecksPass(eval, own, facts)
              && (forall i: BlockId, c, r ::
                    (i < |blocks| && c in blocks[i].checks && BlockCheckComesTo(eval, blocks, own, facts, i, c, r)) ==>
                      r == Some(true))
              && Decide(eval, own.policies, own.registry, facts) == Allowed
  {
    hide RunOf, WorldRules, StartFacts, CanVerify, Answer, Decide;
    var facts := RunOf(eval, WorldRules(blocks, own), StartFacts(blocks, own), limits).1;
    BlockChecksIff(eval, blocks, own, facts);
    hide BlockChecksMustPass;
  }

  /** Whatever errs elsewhere, every check of every block of a token that is allowed holds as its kind means. */
  lemma AllowedTokenHolds(eval: Eval, limits: Limits, blocks: seq<Block>, own: Own, i: BlockId, c: DCheck)
    requires |blocks| < AUTHORIZER && TokenCan(eval, limits, blocks, own)
    requires i < |blocks| && c in blocks[i].checks
    ensures var facts := RunOf(eval, WorldRules(blocks, own), StartFacts(blocks, own), limits).1;
            CheckMeaning(c.kind, eval, c.queries, blocks[i].scopes, i, own.registry, facts)
  {
    TokenCanIff(eval, limits, blocks, own);
    hide RunOf, WorldRules, StartFacts, CanVerify, Answer, Decide, CheckMeaning, TokenCan;
    var facts := RunOf(eval, WorldRules(blocks, own), StartFacts(blocks, own), limits).1;
    assert BlockCheckComesTo(eval, blocks, own, facts, i, c, Some(true));
    PassingCheckHolds(eval, c, Place(blocks[i].scopes, i, own.registry, facts));
  }

  /** Build followed by Authorize, as a caller uses them. */
  method AuthorizeToken(eval: Eval, blocks: seq<Block>, own: Own) returns (d: Decision, ghost facts: set<DFact>)
    requires |blocks| < AUTHORIZER
    ensures facts == RunOf(eval, WorldRules(blocks, own), StartFacts(blocks, own), DEFAULT_LIMITS).1
    ensures d == Allowed ==> forall i: BlockId, c :: i < |blocks| && c in blocks[i].checks ==>
              CheckMeaning(c.kind, eval, c.queries, blocks[i].scopes, i, own.registry, facts)
    ensures d == Allowed ==> TokenCan(eval, DEFAULT_LIMITS, blocks, own)
    ensures TokenMust(eval, DEFAULT_LIMITS, blocks, own) ==> d == Allowed
  {
    hide RunOf, WorldRules, StartFacts, CanAllow, MustAllow, CheckMeaning;
    var authorizer := Build(eval, blocks, own);
    d := authorizer.Authorize();
    facts := authorizer.world.facts;
    if d == Allowed {
      forall i: BlockId, c | i < |blocks| && c in blocks[i].checks
        ensures CheckMeaning(c.kind, eval, c.queries, blocks[i].scopes, i, own.registry, facts)
      {
        AllowedTokenHolds(eval, DEFAULT_LIMITS, blocks, own, i, c);
      }
    }
  }
}
