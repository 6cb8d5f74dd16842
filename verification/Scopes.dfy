/** Which blocks a rule, check or policy trusts (datalog/origin.go). */
module Scopes {
  import opened Types

  /** Public keys, by table index, to the blocks they signed. */
  type Registry = map<uint64, set<BlockId>>

  /** The blocks before block n. */
  function BlocksBelow(n: uint64): (r: Origin)
    ensures forall b: BlockId :: b in r <==> b < n
  {
    if n == 0 then {} else BlocksBelow(n - 1) + {n - 1}
  }

  /** The blocks one scope adds for a rule of block `current`. */
  function Granted(scope: Scope, current: BlockId, registry: Registry): Origin {
    match scope
    case AuthorityScope => {0}
    case PreviousScope => if current == AUTHORIZER then {} else BlocksBelow(current)
    case PublicKeyScope(k) => if k in registry then registry[k] else {}
  }

  function AllGranted(scopes: seq<Scope>, current: BlockId, registry: Registry): Origin {
    set s, b | s in scopes && b in Granted(s, current, registry) :: b
  }

  /** The scopes in force: those of the rule, or else those of its block. */
  function InForce(blockScopes: seq<Scope>, ruleScopes: seq<Scope>): seq<Scope> {
    if ruleScopes == [] then blockScopes else ruleScopes
  }

  function TrustedFromScopes(blockScopes: seq<Scope>, ruleScopes: seq<Scope>, current: BlockId,
                             registry: Registry): Origin {
    var scopes := InForce(blockScopes, ruleScopes);
    {AUTHORIZER, current} + if scopes == [] then {0} else AllGranted(scopes, current, registry)
  }

  lemma GrantNext(scopes: seq<Scope>, i: nat, current: BlockId, registry: Registry)
    requires i < |scopes|
    ensures AllGranted(scopes[..i + 1], current, registry)
            == AllGranted(scopes[..i], current, registry) + Granted(scopes[i], current, registry)
  {
    assert scopes[..i + 1] == scopes[..i] + [scopes[i]];
  }

  /** The loop of the `previous` scope. */
  method InsertBelow(before: Origin, current: BlockId) returns (origin: Origin)
    ensures origin == before + BlocksBelow(current)
  {
    origin := before;
    for b := 0 to current
      invariant origin == before + BlocksBelow(b)
    {
      origin := origin + {b};
    }
  }

  /** NewTrustedOriginFromScopes. */
  method NewTrustedOriginFromScopes(blockScopes: seq<Scope>, ruleScopes: seq<Scope>, current: BlockId,
                                    registry: Registry)
      returns (origin: Origin)
    ensures origin == TrustedFromScopes(blockScopes, ruleScopes, current, registry)
  {
    origin := {AUTHORIZER, current};
    var scopes := ruleScopes;
    if |scopes| == 0 {
      scopes := blockScopes;
    }
    if |scopes| == 0 {
      return {0, AUTHORIZER} + {current};
    }
    for i := 0 to |scopes|
      invariant origin == {AUTHORIZER, current} + AllGranted(scopes[..i], current, registry)
    {
      GrantNext(scopes, i, current, registry);
      match scopes[i]
      case AuthorityScope => origin := origin + {0};
      case PreviousScope =>
        if current != AUTHORIZER {
          origin := InsertBelow(origin, current);
        }
      case PublicKeyScope(k) =>
        if k in registry {
          origin := origin + registry[k];
        }
    }
    assert scopes[..|scopes|] == scopes;
  }

  /** A block trusts a later block, and the authorizer any block but the authority, exactly when
      a public-key scope in force names a key that signed it. */
  lemma LaterBlockTrusted(blockScopes: seq<Scope>, ruleScopes: seq<Scope>, current: BlockId, registry: Registry,
                          n: BlockId)
    requires 0 < n < AUTHORIZER && (current < n || current == AUTHORIZER)
    ensures n in TrustedFromScopes(blockScopes, ruleScopes, current, registry)
            <==> exists k :: PublicKeyScope(k) in InForce(blockScopes, ruleScopes) && k in registry && n in registry[k]
  {
    var scopes := InForce(blockScopes, ruleScopes);
    if k :| PublicKeyScope(k) in scopes && k in registry && n in registry[k] {
      assert n in Granted(PublicKeyScope(k), current, registry);
    }
    if n in TrustedFromScopes(blockScopes, ruleScopes, current, registry) {
      var s :| s in scopes && n in Granted(s, current, registry);
      assert s.PublicKeyScope?;
    }
  }

  /** Every block trusts itself and the authorizer; the authority by default, or with the `authority` scope; all the
      blocks before it with `previous`, which gives the authorizer nothing; and what a registered key signed. The
      scopes of a rule, if it has any, replace those of its block. */
  lemma TrustedExact(blockScopes: seq<Scope>, ruleScopes: seq<Scope>, current: BlockId, registry: Registry, n: BlockId)
    ensures n in TrustedFromScopes(blockScopes, ruleScopes, current, registry) <==>
              || n == AUTHORIZER || n == current
              || (ruleScopes == [] && blockScopes == [] && n == 0)
              || (ruleScopes != [] && exists s :: s in ruleScopes && Reaches(s, current, registry, n))
              || (ruleScopes == [] && exists s :: s in blockScopes && Reaches(s, current, registry, n))
  {
    forall s: Scope
      ensures n in Granted(s, current, registry) <==> Reaches(s, current, registry, n)
    {
    }
    hide Granted, Reaches;
  }

  /** The scope reaches block n from block `current`. */
  ghost predicate Reaches(s: Scope, current: BlockId, registry: Registry, n: BlockId) {
    || (s == AuthorityScope && n == 0)
    || (s == PreviousScope && current != AUTHORIZER && n < current)
    || (s.PublicKeyScope? && s.keyIndex in registry && n in registry[s.keyIndex])
  }
}
