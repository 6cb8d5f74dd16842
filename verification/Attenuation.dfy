/** Appending a block to a token can only restrict it. */
module Attenuation {
  import opened Wrappers
  import opened Types
  import opened Datalog
  import opened Worlds
  import opened Isolation
  import opened Scopes
  import opened Checks
  import opened Authorization

  /** A block of a token, with the public keys registered when its rules are loaded. */
  datatype Block = Block(facts: seq<Fact<string>>, rules: seq<DRule>, checks: seq<DCheck>, scopes: seq<Scope>,
                         registry: Registry)

  /** What the authorizer brings, with all the public keys registered. */
  datatype Own = Own(facts: seq<Fact<string>>, rules: seq<DRule>, checks: seq<DCheck>, policies: seq<Policy>,
                     scopes: seq<Scope>, registry: Registry)

  /** NewWorld's limits: Build takes no others. */
  const DEFAULT_LIMITS := Limits(1000, 100)

  function FactsFrom(id: BlockId, facts: seq<Fact<string>>): set<DFact> {
    set f | f in facts :: OriginFact({id}, f)
  }

  function RulesFrom(id: BlockId, rules: seq<DRule>, scopes: seq<Scope>, registry: Registry): set<TrustedRule> {
    set r | r in rules :: TrustedRule(TrustedFromScopes(scopes, r.scopes, id, registry), id, r)
  }

  function BlockFacts(blocks: seq<Block>): set<DFact>
    requires |blocks| <= AUTHORIZER
  {
    if blocks == [] then {}
    else
      var n := |blocks| - 1;
      BlockFacts(blocks[..n]) + FactsFrom(n, blocks[n].facts)
  }

  function BlockRules(blocks: seq<Block>): set<TrustedRule>
    requires |blocks| <= AUTHORIZER
  {
    if blocks == [] then {}
    else
      var n := |blocks| - 1;
      BlockRules(blocks[..n]) + RulesFrom(n, blocks[n].rules, blocks[n].scopes, blocks[n].registry)
  }

  function StartFacts(blocks: seq<Block>, own: Own): set<DFact>
    requires |blocks| <= AUTHORIZER
  {
    BlockFacts(blocks) + FactsFrom(AUTHORIZER, own.facts)
  }

  function WorldRules(blocks: seq<Block>, own: Own): set<TrustedRule>
    requires |blocks| <= AUTHORIZER
  {
    BlockRules(blocks) + RulesFrom(AUTHORIZER, own.rules, own.scopes, own.registry)
  }

  function SetupOf(blocks: seq<Block>, own: Own): Setup {
    Setup(own.registry, own.scopes, own.checks, own.policies,
          seq(|blocks|, i requires 0 <= i < |blocks| => BlockChecks(blocks[i].scopes, blocks[i].checks)))
  }

  method LoadFacts(world: World, id: BlockId, facts: seq<Fact<string>>)
    modifies world`facts
    ensures world.facts == old(world.facts) + FactsFrom(id, facts)
  {
    for i := 0 to |facts|
      invariant world.facts == old(world.facts) + FactsFrom(id, facts[..i])
    {
      assert facts[..i + 1] == facts[..i] + [facts[i]];
      world.AddFact({id}, facts[i]);
    }
    assert facts[..|facts|] == facts;
  }

  method LoadRules(world: World, id: BlockId, rules: seq<DRule>, scopes: seq<Scope>, registry: Registry)
    modifies world`rules
    ensures world.rules == old(world.rules) + RulesFrom(id, rules, scopes, registry)
  {
    for i := 0 to |rules|
      invariant world.rules == old(world.rules) + RulesFrom(id, rules[..i], scopes, registry)
    {
      assert rules[..i + 1] == rules[..i] + [rules[i]];
      var trusted := NewTrustedOriginFromScopes(scopes, rules[i].scopes, id, registry);
      world.AddRule(trusted, id, rules[i]);
    }
    assert rules[..|rules|] == rules;
  }

  /** Build: load the blocks one by one, then what the authorizer brings. */
  method Build(eval: Eval, blocks: seq<Block>, own: Own) returns (authorizer: Authorizer)
    requires |blocks| < AUTHORIZER
    ensures fresh(authorizer) && fresh(authorizer.world)
    ensures authorizer.world.eval == eval && authorizer.world.limits == DEFAULT_LIMITS
    ensures authorizer.world.facts == StartFacts(blocks, own)
    ensures authorizer.world.rules == WorldRules(blocks, own)
    ensures authorizer.setup == SetupOf(blocks, own)
  {
    hide FactsFrom, RulesFrom;
    var world := new World(eval, DEFAULT_LIMITS);
    var saved: seq<BlockChecks> := [];
    for i := 0 to |blocks|
      invariant world.eval == eval && world.limits == DEFAULT_LIMITS && fresh(world)
      invariant world.facts == BlockFacts(blocks[..i]) && world.rules == BlockRules(blocks[..i])
      invariant |saved| == i && forall k :: 0 <= k < i ==> saved[k] == BlockChecks(blocks[k].scopes, blocks[k].checks)
    {
      assert blocks[..i + 1][..i] == blocks[..i];
      LoadFacts(world, i, blocks[i].facts);
      LoadRules(world, i, blocks[i].rules, blocks[i].scopes, blocks[i].registry);
      saved := saved + [BlockChecks(blocks[i].scopes, blocks[i].checks)];
    }
    assert blocks[..|blocks|] == blocks;
    LoadFacts(world, AUTHORIZER, own.facts);
    LoadRules(world, AUTHORIZER, own.rules, own.scopes, own.registry);
    authorizer := new Authorizer(world, Setup(own.registry, own.scopes, own.checks, own.policies, saved));
  }

  // ---- Leaving a block out of a registry ----

  /** No key is registered for block n. */
  ghost predicate Unnamed(n: BlockId, registry: Registry) {
    forall k :: k in registry ==> n !in registry[k]
  }

  function Forget(n: BlockId, registry: Registry): Registry {
    map k | k in registry :: registry[k] - {n}
  }

  lemma TrustForgets(n: BlockId, blockScopes: seq<Scope>, ruleScopes: seq<Scope>, current: BlockId, registry: Registry)
    requires n !in TrustedFromScopes(blockScopes, ruleScopes, current, registry)
    ensures TrustedFromScopes(blockScopes, ruleScopes, current, Forget(n, registry))
            == TrustedFromScopes(blockScopes, ruleScopes, current, registry)
  {
    var scopes := InForce(blockScopes, ruleScopes);
    forall s | s in scopes && scopes != []
      ensures Granted(s, current, Forget(n, registry)) == Granted(s, current, registry)
    {
      assert n !in Granted(s, current, registry);
    }
  }

  // ---- What does not trust the block sees the same with and without it ----

  /** None of these queries trusts block n. */
  ghost predicate Ignore(n: BlockId, queries: seq<DRule>, scopes: seq<Scope>, current: BlockId, registry: Registry) {
    forall q :: q in queries ==> n !in TrustedFromScopes(scopes, q.scopes, current, registry)
  }

  lemma SeenWithout(n: BlockId, query: DRule, scopes: seq<Scope>, current: BlockId, registry: Registry,
                    facts: set<DFact>)
    requires n !in TrustedFromScopes(scopes, query.scopes, current, registry)
    ensures Seen(query, scopes, current, Forget(n, registry), Without(n, facts)) ==
            Seen(query, scopes, current, registry, facts)
  {
    hide TrustedFromScopes;
    TrustForgets(n, scopes, query.scopes, current, registry);
    VisibleWithout(n, facts, TrustedFromScopes(scopes, query.scopes, current, registry));
  }

  lemma {:induction false} VerifyWithout(n: BlockId, kind: CheckKind, eval: Eval, queries: seq<DRule>,
                                         scopes: seq<Scope>, current: BlockId, registry: Registry, facts: set<DFact>,
                                         passing: bool, r: Option<bool>)
    requires Ignore(n, queries, scopes, current, registry)
    ensures CanVerifyFrom(kind, eval, queries, scopes, current, registry, facts, passing, r)
            <==> CanVerifyFrom(kind, eval, queries, scopes, current, Forget(n, registry), Without(n, facts), passing, r)
    decreases |queries|
  {
    hide TrustedFromScopes, Seen, CanQuery, Forget, Without;
    if queries != [] {
      SeenWithout(n, queries[0], scopes, current, registry, facts);
      forall p: bool
        ensures CanVerifyFrom(kind, eval, queries[1..], scopes, current, registry, facts, p, r)
                <==> CanVerifyFrom(kind, eval, queries[1..], scopes, current, Forget(n, registry), Without(n, facts),
                                   p, r)
      {
        VerifyWithout(n, kind, eval, queries[1..], scopes, current, registry, facts, p, r);
      }
    }
  }

  lemma {:induction false} AnswerWithout(n: BlockId, eval: Eval, queries: seq<DRule>, scopes: seq<Scope>,
                                         registry: Registry, facts: set<DFact>)
    requires Ignore(n, queries, scopes, AUTHORIZER, registry)
    ensures Answer(eval, queries, scopes, Forget(n, registry), Without(n, facts)) ==
            Answer(eval, queries, scopes, registry, facts)
    decreases |queries|
  {
    hide TrustedFromScopes, Seen, Forget, Without, Errs, Derived;
    if queries != [] {
      SeenWithout(n, queries[0], scopes, AUTHORIZER, registry, facts);
      AnswerWithout(n, eval, queries[1..], scopes, registry, facts);
    }
  }

  lemma {:induction false} DecideWithout(n: BlockId, eval: Eval, policies: seq<Policy>, registry: Registry,
                                         facts: set<DFact>)
    requires forall p :: p in policies ==> Ignore(n, p.queries, [], AUTHORIZER, registry)
    ensures Decide(eval, policies, Forget(n, registry), Without(n, facts)) == Decide(eval, policies, registry, facts)
    decreases |policies|
  {
    hide Ignore, Answer, Forget, Without;
    if policies != [] {
      assert policies[0] in policies;
      AnswerWithout(n, eval, policies[0].queries, [], registry, facts);
      DecideWithout(n, eval, policies[1..], registry, facts);
    }
  }

  /** No rule, check or policy outside block n trusts it. */
  ghost predicate Untrusted(n: BlockId, blocks: seq<Block>, own: Own)
    requires |blocks| == n
  {
    && (forall b :: b in blocks ==> Unnamed(n, b.registry))
    && Ignore(n, own.rules, own.scopes, AUTHORIZER, own.registry)
    && (forall i, c :: 0 <= i < |blocks| && c in blocks[i].checks ==>
        Ignore(n, c.queries, blocks[i].scopes, i, own.registry))
    && (forall c :: c in own.checks ==> Ignore(n, c.queries, own.scopes, AUTHORIZER, own.registry))
    && (forall p :: p in own.policies ==> Ignore(n, p.queries, [], AUTHORIZER, own.registry))
  }

  lemma {:induction false} BlocksApart(n: BlockId, blocks: seq<Block>)
    requires |blocks| <= n < AUTHORIZER && 0 < n && forall b :: b in blocks ==> Unnamed(n, b.registry)
    ensures Apart(n, BlockRules(blocks))
    ensures Without(n, BlockFacts(blocks)) == BlockFacts(blocks)
    decreases |blocks|
  {
    if blocks != [] {
      var i: BlockId := |blocks| - 1;
      BlocksApart(n, blocks[..i]);
      assert blocks[i] in blocks;
      forall r | r in blocks[i].rules
        ensures n !in TrustedFromScopes(blocks[i].scopes, r.scopes, i, blocks[i].registry)
      {
        LaterBlockTrusted(blocks[i].scopes, r.scopes, i, blocks[i].registry, n);
      }
      hide TrustedFromScopes, Unnamed;
    }
  }

  lemma OwnRulesForget(n: BlockId, own: Own)
    requires Ignore(n, own.rules, own.scopes, AUTHORIZER, own.registry) && n < AUTHORIZER
    ensures RulesFrom(AUTHORIZER, own.rules, own.scopes, Forget(n, own.registry))
            == RulesFrom(AUTHORIZER, own.rules, own.scopes, own.registry)
    ensures Apart(n, RulesFrom(AUTHORIZER, own.rules, own.scopes, own.registry))
  {
    forall r | r in own.rules
      ensures TrustedFromScopes(own.scopes, r.scopes, AUTHORIZER, Forget(n, own.registry))
              == TrustedFromScopes(own.scopes, r.scopes, AUTHORIZER, own.registry)
    {
      TrustForgets(n, own.scopes, r.scopes, AUTHORIZER, own.registry);
    }
    hide TrustedFromScopes;
  }

  /** Loading one more block adds its facts and rules, which all carry its id. */
  lemma AppendedWorld(n: BlockId, blocks: seq<Block>, last: Block, own: Own)
    requires |blocks| == n && 0 < n && n + 1 < AUTHORIZER && Untrusted(n, blocks, own)
    ensures WorldRules(blocks + [last], own)
            == WorldRules(blocks, own) + RulesFrom(n, last.rules, last.scopes, last.registry)
    ensures Apart(n, WorldRules(blocks, own)) && OfBlock(n, RulesFrom(n, last.rules, last.scopes, last.registry))
    ensures WorldRules(blocks, own.(registry := Forget(n, own.registry))) == WorldRules(blocks, own)
    ensures Without(n, StartFacts(blocks + [last], own)) == StartFacts(blocks, own)
  {
    assert (blocks + [last])[..n] == blocks;
    BlocksApart(n, blocks);
    OwnRulesForget(n, own);
    hide TrustedFromScopes, Forget, Ignore, Unnamed;
    assert Without(n, FactsFrom(n, last.facts)) == {};
    assert Without(n, FactsFrom(AUTHORIZER, own.facts)) == FactsFrom(AUTHORIZER, own.facts);
  }

  /** Checks and policies other than those of block n come out the same without it. */
  lemma VerdictsWithout(eval: Eval, n: BlockId, blocks: seq<Block>, last: Block, own: Own, facts: set<DFact>)
    requires |blocks| == n && n + 1 < AUTHORIZER && Untrusted(n, blocks, own)
    ensures var big, small := SetupOf(blocks + [last], own), SetupOf(blocks, own.(registry := Forget(n, own.registry)));
            && (AuthorizerChecksPass(eval, small, Without(n, facts)) <==> AuthorizerChecksPass(eval, big, facts))
            && (BlockChecksCanPass(eval, big, facts) ==> BlockChecksCanPass(eval, small, Without(n, facts)))
            && (BlockChecksMustPass(eval, big, facts) ==> BlockChecksMustPass(eval, small, Without(n, facts)))
            && Decide(eval, small.policies, small.registry, Without(n, facts)) ==
               Decide(eval, big.policies, big.registry, facts)
  {
    hide Ignore, Without, Forget, CanVerifyFrom, Answer;
    var big, small := SetupOf(blocks + [last], own), SetupOf(blocks, own.(registry := Forget(n, own.registry)));
    forall c | c in own.checks
      ensures Answer(eval, c.queries, own.scopes, small.registry, Without(n, facts))
              == Answer(eval, c.queries, own.scopes, own.registry, facts)
    {
      AnswerWithout(n, eval, c.queries, own.scopes, own.registry, facts);
    }
    forall i, c, r | 0 <= i < n && c in blocks[i].checks
      ensures small.blocks[i] == big.blocks[i]
      ensures CanVerify(eval, c, blocks[i].scopes, i, own.registry, facts, r)
              <==> CanVerify(eval, c, blocks[i].scopes, i, small.registry, Without(n, facts), r)
    {
      VerifyWithout(n, c.kind, eval, c.queries, blocks[i].scopes, i, own.registry, facts, c.kind != CheckOne, r);
    }
    hide CanVerify;
    DecideWithout(n, eval, own.policies, own.registry, facts);
  }

  /** Authorizing the token can end in allow. */
  ghost predicate TokenCan(eval: Eval, limits: Limits, blocks: seq<Block>, own: Own)
    requires |blocks| <= AUTHORIZER
  {
    CanAllow(eval, limits, WorldRules(blocks, own), StartFacts(blocks, own), SetupOf(blocks, own))
  }

  /** Authorizing the token always ends in allow. */
  ghost predicate TokenMust(eval: Eval, limits: Limits, blocks: seq<Block>, own: Own)
    requires |blocks| <= AUTHORIZER
  {
    MustAllow(eval, limits, WorldRules(blocks, own), StartFacts(blocks, own), SetupOf(blocks, own))
  }

  /** Attenuation. If a token with an extra last block that nothing else trusts can be allowed,
      it can be allowed without that block: whatever facts, rules and checks the block holds,
      under the same limits on facts and iterations, and errors included. Likewise for a token
      that is allowed in every order of facts. */
  lemma AppendedBlockOnlyRestricts(eval: Eval, limits: Limits, blocks: seq<Block>, last: Block, own: Own)
    requires 0 < |blocks| && |blocks| + 1 < AUTHORIZER && Untrusted(|blocks|, blocks, own)
    ensures var small := own.(registry := Forget(|blocks|, own.registry));
            && (TokenCan(eval, limits, blocks + [last], own) ==> TokenCan(eval, limits, blocks, small))
            && (TokenMust(eval, limits, blocks + [last], own) ==> TokenMust(eval, limits, blocks, small))
  {
    var n: BlockId := |blocks|;
    var small := own.(registry := Forget(n, own.registry));
    var rules, start := WorldRules(blocks + [last], own), StartFacts(blocks + [last], own);
    AppendedWorld(n, blocks, last, own);
    VerdictsWithout(eval, n, blocks, last, own, RunOf(eval, rules, start, limits).1);
    assert StartFacts(blocks, small) == StartFacts(blocks, own);
    hide WorldRules, StartFacts, SetupOf, RulesFrom, Untrusted, AuthorizerChecksPass, BlockChecksCanPass,
         BlockChecksMustPass, Decide, Forget, Without, Apart, OfBlock, RunOf;
    if RunOf(eval, rules, start, limits).0.Done? {
      RunIsolated(eval, WorldRules(blocks, own), RulesFrom(n, last.rules, last.scopes, last.registry), start, n,
                  limits);
    }
  }

  /** A first-party block has no key registered for it, so nothing else ever trusts it. */
  lemma FirstPartyIsUntrusted(blocks: seq<Block>, own: Own)
    requires 0 < |blocks| < AUTHORIZER
    requires Unnamed(|blocks|, own.registry) && forall b :: b in blocks ==> Unnamed(|blocks|, b.registry)
    ensures Untrusted(|blocks|, blocks, own)
    ensures own.(registry := Forget(|blocks|, own.registry)) == own
  {
    var n: BlockId := |blocks|;
    forall queries: seq<DRule>, scopes: seq<Scope>, i: BlockId | i < n || i == AUTHORIZER
      ensures Ignore(n, queries, scopes, i, own.registry)
    {
      forall q | q in queries
        ensures n !in TrustedFromScopes(scopes, q.scopes, i, own.registry)
      {
        LaterBlockTrusted(scopes, q.scopes, i, own.registry, n);
      }
    }
    hide Ignore;
    forall k | k in own.registry
      ensures own.registry[k] - {n} == own.registry[k]
    {
      assert n !in own.registry[k];
    }
    assert Forget(n, own.registry) == own.registry;
  }

  /** Appending a first-party block to any token can only restrict it. */
  lemma FirstPartyBlockOnlyRestricts(eval: Eval, limits: Limits, blocks: seq<Block>, last: Block, own: Own)
    requires 0 < |blocks| && |blocks| + 1 < AUTHORIZER
    requires Unnamed(|blocks|, own.registry) && forall b :: b in blocks ==> Unnamed(|blocks|, b.registry)
    ensures TokenCan(eval, limits, blocks + [last], own) ==> TokenCan(eval, limits, blocks, own)
    ensures TokenMust(eval, limits, blocks + [last], own) ==> TokenMust(eval, limits, blocks, own)
  {
    FirstPartyIsUntrusted(blocks, own);
    hide TokenCan, TokenMust;
    AppendedBlockOnlyRestricts(eval, limits, blocks, last, own);
  }
}
