/** The signature chain of a token (biscuit.go, third_party.go), with symbolic keys and
    signatures: a signature verifies under one key and over one payload only. */
module Tokens {
  import opened Wrappers
  import opened Symbols

  datatype Algorithm = Ed25519 | Secp256r1 | OtherAlgorithm

  /** The bytes of a key, or bytes that no key can be read from. */
  datatype KeyBytes = KeyBytes(id: nat) | Garbled

  datatype PublicKey = PublicKey(alg: Algorithm, key: KeyBytes)
  datatype PrivateKey = PrivateKey(alg: Algorithm, id: nat)

  function PublicOf(k: PrivateKey): PublicKey { PublicKey(k.alg, KeyBytes(k.id)) }

  /** A verifier or a signer can be made of the bytes. */
  predicate Usable(alg: Algorithm, key: KeyBytes) { !alg.OtherAlgorithm? && key.KeyBytes? }

  /** A block as it is marshalled: its symbol window, its Datalog version, and the rest. */
  datatype Block = Block(symbols: Table, version: nat, content: seq<bv8>)

  datatype Payload =
    | BlockV0(alg: Algorithm, block: Block, nextKey: KeyBytes)
    | AuthorityV1(alg: Algorithm, block: Block, nextKey: KeyBytes)
    | BlockV1(alg: Algorithm, block: Block, nextKey: KeyBytes, external: Option<Signature>, previous: Signature)
    | SealedPayload(alg: Algorithm, block: Block, nextKey: KeyBytes, signature: Signature)
    | ExternalV1(block: Block, previous: Signature)

  datatype Signature = Signature(signer: PublicKey, payload: Payload, salt: nat)

  /** Signing is deterministic for one algorithm and randomised for the other. */
  function Sign(key: PrivateKey, payload: Payload, salt: nat): Signature {
    Signature(PublicOf(key), payload, if key.alg.Ed25519? then 0 else salt)
  }

  predicate Verifies(key: PublicKey, payload: Payload, s: Signature) {
    s.signer == key && s.payload == payload
  }

  datatype External = External(signature: Signature, publicKey: PublicKey)

  datatype SignedBlock = SignedBlock(block: Block, nextKey: PublicKey, signature: Signature,
                                     external: Option<External>, version: nat)

  datatype Proof = NextSecret(key: KeyBytes) | FinalSignature(signature: Signature) | NoProof

  datatype Container = Container(authority: SignedBlock, blocks: seq<SignedBlock>, proof: Proof)

  /** A token: the container, whose blocks it holds parsed as well, and its symbol table. */
  datatype Token = Token(symbols: Table, container: Container)

  datatype Error =
    | SymbolOverlap | Sealed | BadKey | BadVersion | BadSignature
    | NoExternalSignature | BadBlock | NoProofFound

  const BLOCK_SIGNATURE_V1: nat := 1
  const MIN_DATALOG: nat := 3
  const MAX_DATALOG: nat := 6
  const MIN_THIRD_PARTY_DATALOG: nat := 5

  function LastSigned(c: Container): SignedBlock {
    if c.blocks == [] then c.authority else c.blocks[|c.blocks| - 1]
  }

  function RevocationIds(c: Container): (r: seq<Signature>)
    ensures |r| == |c.blocks| + 1
  {
    [c.authority.signature] + seq(|c.blocks|, i requires 0 <= i < |c.blocks| => c.blocks[i].signature)
  }

  function SignerFrom(alg: Algorithm, key: KeyBytes): Option<PrivateKey> {
    if Usable(alg, key) then Some(PrivateKey(alg, key.id)) else None
  }

  // ---- Making tokens ----

  /** newBiscuit. The id of the next key and the salt are the random choices. */
  function NewToken(root: PrivateKey, symbols: Table, authority: Block, next: nat, salt: nat): Result<Token, Error> {
    if !Disjoint(symbols, authority.symbols) then Err(SymbolOverlap)
    else if root.alg.OtherAlgorithm? then Err(BadKey)
    else
      var payload := AuthorityV1(root.alg, authority, KeyBytes(next));
      var signed := SignedBlock(authority, PublicKey(root.alg, KeyBytes(next)), Sign(root, payload, salt), None,
                                BLOCK_SIGNATURE_V1);
      Ok(Token(InternAll(symbols, authority.symbols), Container(signed, [], NextSecret(KeyBytes(next)))))
  }

  /** Biscuit.append. */
  function Append(t: Token, block: Block, external: Option<External>, next: nat, salt: nat): Result<Token, Error> {
    var last := LastSigned(t.container);
    if !t.container.proof.NextSecret? then Err(Sealed)
    else
      match SignerFrom(last.nextKey.alg, t.container.proof.key)
      case None => Err(BadKey)
      case Some(signer) =>
        if !Disjoint(t.symbols, block.symbols) then Err(SymbolOverlap)
        else
          var alg := last.nextKey.alg;
          var ext := match external case None => None case Some(e) => Some(e.signature);
          var payload := BlockV1(alg, block, KeyBytes(next), ext, last.signature);
          var signed := SignedBlock(block, PublicKey(alg, KeyBytes(next)), Sign(signer, payload, salt), external,
                                    BLOCK_SIGNATURE_V1);
          var symbols := if external.None? then InternAll(t.symbols, block.symbols) else t.symbols;
          Ok(Token(symbols, Container(t.container.authority, t.container.blocks + [signed],
                                      NextSecret(KeyBytes(next)))))
  }

  /** verifyExternalSignature. */
  predicate ExternalVerifies(block: Block, previous: Signature, e: External, version: nat) {
    && version == BLOCK_SIGNATURE_V1
    && Usable(e.publicKey.alg, e.publicKey.key)
    && Verifies(e.publicKey, ExternalV1(block, previous), e.signature)
  }

  datatype ThirdPartyContents = ThirdPartyContents(payload: Block, external: Option<External>)

  function AppendThirdParty(t: Token, contents: ThirdPartyContents, next: nat, salt: nat): Result<Token, Error> {
    if contents.external.None? then Err(NoExternalSignature)
    else if !ExternalVerifies(contents.payload, LastSigned(t.container).signature, contents.external.value,
                              BLOCK_SIGNATURE_V1)
    then Err(BadSignature)
    else if !(MIN_DATALOG <= contents.payload.version <= MAX_DATALOG) then Err(BadBlock)
    else if contents.payload.version < MIN_THIRD_PARTY_DATALOG then Err(BadBlock)
    else Append(t, contents.payload, contents.external, next, salt)
  }

  /** ThirdPartyBlockRequest, which carries the last signature of a token that is not sealed. */
  function Request(t: Token): Option<Signature> {
    if t.container.proof.NextSecret? then Some(LastSigned(t.container).signature) else None
  }

  /** SignRequest. */
  function SignRequest(previous: Signature, key: PrivateKey, block: Block, salt: nat): Result<ThirdPartyContents,
          Error> {
    if key.alg.OtherAlgorithm? then Err(BadKey)
    else Ok(ThirdPartyContents(block, Some(External(Sign(key, ExternalV1(block, previous), salt), PublicOf(key)))))
  }

  function SealPayload(last: SignedBlock): Payload {
    SealedPayload(last.nextKey.alg, last.block, last.nextKey.key, last.signature)
  }

  function Seal(t: Token, salt: nat): Result<Token, Error> {
    var last := LastSigned(t.container);
    if !t.container.proof.NextSecret? then Err(Sealed)
    else
      match SignerFrom(last.nextKey.alg, t.container.proof.key)
      case None => Err(BadKey)
      case Some(signer) =>
        Ok(t.(container := t.container.(proof := FinalSignature(Sign(signer, SealPayload(last), salt)))))
  }

  // ---- Verifying tokens ----

  /** What the signature of the authority block is over. */
  function AuthorityPayload(b: SignedBlock): Payload {
    if b.version == 0 then BlockV0(b.nextKey.alg, b.block, b.nextKey.key)
    else AuthorityV1(b.nextKey.alg, b.block, b.nextKey.key)
  }

  /** What the signature of a later block is over. */
  function BlockPayload(b: SignedBlock, previous: Signature): Payload {
    if b.version == 0 then BlockV0(b.nextKey.alg, b.block, b.nextKey.key)
    else
      var ext := match b.external case None => None case Some(e) => Some(e.signature);
      BlockV1(b.nextKey.alg, b.block, b.nextKey.key, ext, previous)
  }

  predicate AuthorityVerifies(root: PublicKey, b: SignedBlock) {
    && b.version <= BLOCK_SIGNATURE_V1
    && Verifies(root, AuthorityPayload(b), b.signature)
    && Usable(b.nextKey.alg, b.nextKey.key)
  }

  /** A later block is signed with the key its predecessor announces. */
  predicate BlockVerifies(before: SignedBlock, b: SignedBlock) {
    && b.version <= BLOCK_SIGNATURE_V1
    && Verifies(before.nextKey, BlockPayload(b, before.signature), b.signature)
    && (b.external.Some? ==> ExternalVerifies(b.block, before.signature, b.external.value, b.version))
    && Usable(b.nextKey.alg, b.nextKey.key)
  }

  predicate ProofVerifies(c: Container) {
    var last := LastSigned(c);
    match c.proof
    case NextSecret(key) => Usable(last.nextKey.alg, key) && last.nextKey.key == key
    case FinalSignature(s) => Verifies(last.nextKey, SealPayload(last), s)
    case NoProof => false
  }

  function Before(c: Container, i: nat): SignedBlock
    requires i < |c.blocks|
  {
    if i == 0 then c.authority else c.blocks[i - 1]
  }

  /** Block i of a chain verifies after the one before it. */
  predicate LinkVerifies(c: Container, i: nat)
    requires i < |c.blocks|
  {
    BlockVerifies(Before(c, i), c.blocks[i])
  }

  /** Every link of the chain but the proof. */
  predicate Chained(root: PublicKey, c: Container) {
    && AuthorityVerifies(root, c.authority)
    && forall i :: 0 <= i < |c.blocks| ==> LinkVerifies(c, i)
  }

  /** Every link of the chain verifies, and the proof at its end. */
  predicate Accepted(root: PublicKey, c: Container) {
    && !root.alg.OtherAlgorithm?
    && Chained(root, c)
    && ProofVerifies(c)
  }

  /** One turn of the loop of authorizerFor. */
  method VerifyBlock(verifier: PublicKey, previous: Signature, b: SignedBlock, ghost before: SignedBlock)
    returns (error: Option<Error>)
    requires verifier == before.nextKey && previous == before.signature
    ensures error.None? <==> BlockVerifies(before, b)
  {
    if b.version > BLOCK_SIGNATURE_V1 {
      return Some(BadVersion);
    }
    if !Verifies(verifier, BlockPayload(b, previous), b.signature) {
      return Some(BadSignature);
    }
    if b.external.Some? && !ExternalVerifies(b.block, previous, b.external.value, b.version) {
      return Some(BadSignature);
    }
    error := if Usable(b.nextKey.alg, b.nextKey.key) then None else Some(BadKey);
  }

  /** The end of authorizerFor, with the verifier made from the last block's next key. */
  method VerifyProof(verifier: PublicKey, c: Container) returns (error: Option<Error>)
    requires verifier == LastSigned(c).nextKey
    ensures error.None? <==> ProofVerifies(c)
  {
    var last := LastSigned(c);
    match c.proof
    case NextSecret(key) =>
      var signer := SignerFrom(last.nextKey.alg, key);
      if signer.None? {
        return Some(BadKey);
      }
      error := if verifier == PublicOf(signer.value) then None else Some(BadSignature);
    case FinalSignature(s) =>
      error := if Verifies(verifier, SealPayload(last), s) then None else Some(BadSignature);
    case NoProof =>
      error := Some(NoProofFound);
  }

  /** Biscuit.authorizerFor: None when the token is accepted. */
  method AuthorizerFor(root: PublicKey, c: Container) returns (error: Option<Error>)
    ensures error.None? <==> Accepted(root, c)
  {
    hide AuthorityPayload, BlockVerifies, ProofVerifies, Verifies;
    if root.alg.OtherAlgorithm? {
      return Some(BadKey);
    }
    if c.authority.version > BLOCK_SIGNATURE_V1 {
      return Some(BadVersion);
    }
    if !Verifies(root, AuthorityPayload(c.authority), c.authority.signature) {
      return Some(BadSignature);
    }
    if !Usable(c.authority.nextKey.alg, c.authority.nextKey.key) {
      return Some(BadKey);
    }
    var verifier, previous := c.authority.nextKey, c.authority.signature;
    for i := 0 to |c.blocks|
      invariant forall k :: 0 <= k < i ==> LinkVerifies(c, k)
      invariant verifier == (if i == 0 then c.authority else c.blocks[i - 1]).nextKey
      invariant previous == (if i == 0 then c.authority else c.blocks[i - 1]).signature
    {
      error := VerifyBlock(verifier, previous, c.blocks[i], Before(c, i));
      if error.Some? {
        assert !LinkVerifies(c, i);
        return;
      }
      verifier, previous := c.blocks[i].nextKey, c.blocks[i].signature;
    }
    error := VerifyProof(verifier, c);
  }

  // ---- Runs ----

  datatype Act =
    | AppendBlock(block: Block, next: nat, salt: nat)
    | AppendContents(contents: ThirdPartyContents, next: nat, salt: nat)
    | SealToken(salt: nat)

  function Perform(t: Token, act: Act): Result<Token, Error> {
    match act
    case AppendBlock(block, next, salt) => Append(t, block, None, next, salt)
    case AppendContents(contents, next, salt) => AppendThirdParty(t, contents, next, salt)
    case SealToken(salt) => Seal(t, salt)
  }

  function PerformAll(t: Token, acts: seq<Act>): Result<Token, Error>
    decreases |acts|
  {
    if acts == [] then Ok(t)
    else
      match Perform(t, acts[0])
      case Err(e) => Err(e)
      case Ok(t') => PerformAll(t', acts[1..])
  }

  /** c' has all the signed blocks of c, in the same places. */
  ghost predicate KeepsBlocks(c: Container, c': Container) {
    c'.authority == c.authority && c.blocks <= c'.blocks
  }

  lemma NewIsAccepted(root: PrivateKey, symbols: Table, authority: Block, next: nat, salt: nat)
    requires NewToken(root, symbols, authority, next, salt).Ok?
    ensures var c := NewToken(root, symbols, authority, next, salt).value.container;
            Accepted(PublicOf(root), c) && c.blocks == [] && c.proof.NextSecret?
  {
    hide Disjoint, InternAll;
  }

  lemma OneMoreLink(root: PublicKey, c: Container, b: SignedBlock, proof: Proof)
    requires Chained(root, c) && BlockVerifies(LastSigned(c), b)
    ensures Chained(root, Container(c.authority, c.blocks + [b], proof))
  {
    hide AuthorityVerifies, BlockVerifies;
    var c' := Container(c.authority, c.blocks + [b], proof);
    forall i | 0 <= i < |c'.blocks|
      ensures LinkVerifies(c', i)
    {
      if i < |c.blocks| {
        assert LinkVerifies(c, i) && Before(c', i) == Before(c, i);
      } else {
        assert Before(c', i) == LastSigned(c);
      }
    }
  }

  lemma OneMoreId(c: Container, b: SignedBlock, proof: Proof)
    ensures RevocationIds(Container(c.authority, c.blocks + [b], proof)) == RevocationIds(c) + [b.signature]
  {
  }

  /** One more block that verifies after the last keeps the chain accepted, with a proof for its next key. */
  lemma OneMoreBlock(root: PublicKey, c: Container, b: SignedBlock)
    requires Accepted(root, c) && BlockVerifies(LastSigned(c), b)
    ensures var c' := Container(c.authority, c.blocks + [b], NextSecret(b.nextKey.key));
            Accepted(root, c') && RevocationIds(c') == RevocationIds(c) + [b.signature]
  {
    var proof := NextSecret(b.nextKey.key);
    OneMoreLink(root, c, b, proof);
    OneMoreId(c, b, proof);
    assert LastSigned(Container(c.authority, c.blocks + [b], proof)) == b;
    hide Chained, RevocationIds, LastSigned;
  }

  /** The keys of an accepted token that is not sealed can sign. */
  lemma AcceptedCanSign(root: PublicKey, c: Container)
    requires Accepted(root, c) && c.proof.NextSecret?
    ensures var last := LastSigned(c).nextKey;
            && Usable(last.alg, c.proof.key) && last.key == c.proof.key
            && SignerFrom(last.alg, c.proof.key).Some?
            && PublicOf(SignerFrom(last.alg, c.proof.key).value) == last
  {
  }

  /** On an accepted token, an append fails for two reasons only; it adds one block at the
      end, signed over the one before, and the token stays accepted. */
  lemma AppendOutcome(root: PublicKey, t: Token, block: Block, external: Option<External>, next: nat, salt: nat)
    requires Accepted(root, t.container)
    requires external.Some? ==> ExternalVerifies(block, LastSigned(t.container).signature, external.value,
                                                 BLOCK_SIGNATURE_V1)
    ensures var r := Append(t, block, external, next, salt);
            && (r.Ok? <==> t.container.proof.NextSecret? && Disjoint(t.symbols, block.symbols))
            && (r.Ok? ==>
                  && Accepted(root, r.value.container)
                  && KeepsBlocks(t.container, r.value.container)
                  && |r.value.container.blocks| == |t.container.blocks| + 1
                  && LastSigned(r.value.container).block == block
                  && LastSigned(r.value.container).external == external
                  && RevocationIds(r.value.container)
                     == RevocationIds(t.container) + [LastSigned(r.value.container).signature])
  {
    hide Disjoint, InternAll, Accepted, ExternalVerifies, RevocationIds;
    if t.container.proof.NextSecret? {
      AcceptedCanSign(root, t.container);
      var r := Append(t, block, external, next, salt);
      if r.Ok? {
        var b := LastSigned(r.value.container);
        assert BlockVerifies(LastSigned(t.container), b);
        OneMoreBlock(root, t.container, b);
      }
    }
  }

  lemma SealOutcome(root: PublicKey, t: Token, salt: nat)
    requires Accepted(root, t.container)
    ensures var r := Seal(t, salt);
            && (r.Ok? <==> t.container.proof.NextSecret?)
            && (r.Ok? ==>
                  && Accepted(root, r.value.container) && r.value.container.proof.FinalSignature?
                  && KeepsBlocks(t.container, r.value.container)
                  && RevocationIds(r.value.container) == RevocationIds(t.container))
  {
    var r := Seal(t, salt);
    if r.Ok? {
      var c, c' := t.container, r.value.container;
      forall i | 0 <= i < |c'.blocks|
        ensures LinkVerifies(c', i)
      {
        assert LinkVerifies(c, i) && Before(c', i) == Before(c, i);
      }
    }
  }

  /** Nothing can be done to a sealed token. */
  lemma SealedIsFinal(t: Token, act: Act)
    requires !t.container.proof.NextSecret?
    ensures Perform(t, act).Err? && Request(t).None?
  {
    hide Disjoint, InternAll, ExternalVerifies;
  }

  lemma PerformOutcome(root: PublicKey, t: Token, act: Act)
    requires Accepted(root, t.container) && Perform(t, act).Ok?
    ensures var t' := Perform(t, act).value;
            && Accepted(root, t'.container) && KeepsBlocks(t.container, t'.container)
            && RevocationIds(t.container) <= RevocationIds(t'.container)
            && (act.SealToken? <==> t'.container.proof.FinalSignature?)
            && |RevocationIds(t'.container)| == |RevocationIds(t.container)| + if act.SealToken? then 0 else 1
  {
    hide Accepted, Disjoint, InternAll, ExternalVerifies, RevocationIds, KeepsBlocks;
    match act
    case AppendBlock(block, next, salt) => AppendOutcome(root, t, block, None, next, salt);
    case AppendContents(contents, next, salt) =>
      AppendOutcome(root, t, contents.payload, contents.external, next, salt);
    case SealToken(salt) => SealOutcome(root, t, salt);
  }

  /** Whatever is done to an accepted token, it stays accepted under the same root key, its signed
      blocks and revocation ids stay in place, each append adds one at the end, and only
      the last act can be a seal. */
  lemma {:induction false} RunStaysAccepted(root: PublicKey, t: Token, acts: seq<Act>)
    requires Accepted(root, t.container) && PerformAll(t, acts).Ok?
    ensures var t' := PerformAll(t, acts).value;
            && Accepted(root, t'.container) && KeepsBlocks(t.container, t'.container)
            && RevocationIds(t.container) <= RevocationIds(t'.container)
            && (forall i :: 0 <= i < |acts| - 1 ==> !acts[i].SealToken?)
            && |RevocationIds(t'.container)|
               == |RevocationIds(t.container)| + |acts| - if acts != [] && acts[|acts| - 1].SealToken? then 1 else 0
    decreases |acts|
  {
    hide Accepted, Perform, RevocationIds;
    if acts != [] {
      var t1 := Perform(t, acts[0]).value;
      PerformOutcome(root, t, acts[0]);
      RunStaysAccepted(root, t1, acts[1..]);
      if |acts| > 1 && acts[0].SealToken? {
        SealedIsFinal(t1, acts[1]);
      }
    }
  }

  /** Every token made by create, append, third-party append and seal is accepted under
      the public root key. */
  lemma ReachableIsAccepted(root: PrivateKey, symbols: Table, authority: Block, next: nat, salt: nat, acts: seq<Act>)
    requires NewToken(root, symbols, authority, next, salt).Ok?
    requires PerformAll(NewToken(root, symbols, authority, next, salt).value, acts).Ok?
    ensures var t := PerformAll(NewToken(root, symbols, authority, next, salt).value, acts).value;
            && Accepted(PublicOf(root), t.container)
            && t.container.authority.block == authority
            && |RevocationIds(t.container)|
               == 1 + |acts| - if acts != [] && acts[|acts| - 1].SealToken? then 1 else 0
  {
    hide Accepted, Disjoint, InternAll, Perform;
    NewIsAccepted(root, symbols, authority, next, salt);
    RunStaysAccepted(PublicOf(root), NewToken(root, symbols, authority, next, salt).value, acts);
  }

  // ---- Third-party blocks are bound to the token they were requested for ----

  /** A block signed on request is taken by exactly the open tokens that end in the requested
      signature, share no symbol with it, and only in a recent enough Datalog version. */
  lemma SignedRequestIsBound(root: PublicKey, t: Token, previous: Signature, key: PrivateKey, block: Block, salt: nat,
                             next: nat, salt': nat)
    requires Accepted(root, t.container) && SignRequest(previous, key, block, salt).Ok?
    ensures AppendThirdParty(t, SignRequest(previous, key, block, salt).value, next, salt').Ok? <==>
              && Request(t) == Some(previous)
              && MIN_THIRD_PARTY_DATALOG <= block.version <= MAX_DATALOG
              && Disjoint(t.symbols, block.symbols)
  {
    hide Accepted, Disjoint, InternAll;
    var contents := SignRequest(previous, key, block, salt).value;
    if LastSigned(t.container).signature == previous {
      AppendOutcome(root, t, block, contents.external, next, salt');
    }
  }

  // ---- Revocation ids identify blocks ----

  /** A container without its proof, and without the external signature of the authority
      block, which nothing verifies. */
  function SignedPart(c: Container): Container {
    c.(proof := NoProof, authority := c.authority.(external := None))
  }

  /** A verified signature determines all of its block. */
  lemma SignatureIdentifies(before: SignedBlock, x: SignedBlock, before': SignedBlock, y: SignedBlock)
    requires BlockVerifies(before, x) && BlockVerifies(before', y) && x.signature == y.signature
    ensures x == y
  {
    assert BlockPayload(x, before.signature) == BlockPayload(y, before'.signature);
    assert x.external.Some? <==> y.external.Some?;
  }

  /** Two accepted tokens of one root key with the same revocation ids hold the same signed blocks. */
  lemma RevocationIdsIdentify(root: PublicKey, a: Container, b: Container)
    requires Accepted(root, a) && Accepted(root, b)
    ensures RevocationIds(a) == RevocationIds(b) <==> SignedPart(a) == SignedPart(b)
  {
    hide BlockVerifies, Verifies, ProofVerifies;
    var ra, rb := RevocationIds(a), RevocationIds(b);
    if ra == rb {
      assert ra[0] == rb[0];
      assert a.authority.(external := None) == b.authority.(external := None) by {
        AuthoritySignatureIdentifies(root, a.authority, b.authority);
      }
      forall i | 0 <= i < |a.blocks|
        ensures a.blocks[i] == b.blocks[i]
      {
        assert ra[i + 1] == rb[i + 1] && LinkVerifies(a, i) && LinkVerifies(b, i);
        SignatureIdentifies(Before(a, i), a.blocks[i], Before(b, i), b.blocks[i]);
      }
      assert a.blocks == b.blocks;
    }
  }

  lemma AuthoritySignatureIdentifies(root: PublicKey, x: SignedBlock, y: SignedBlock)
    requires AuthorityVerifies(root, x) && AuthorityVerifies(root, y) && x.signature == y.signature
    ensures x.(external := None) == y.(external := None)
  {
    assert AuthorityPayload(x) == AuthorityPayload(y);
  }

  /** All the blocks carry signatures of version 1, as every block made here does. */
  predicate AllVersion1(c: Container) {
    && c.authority.version == 1
    && forall b :: b in c.blocks ==> b.version == 1
  }

  function Shorter(c: Container): Container
    requires c.blocks != []
  {
    c.(blocks := c.blocks[..|c.blocks| - 1])
  }

  lemma ShorterIsChained(root: PublicKey, c: Container)
    requires Chained(root, c) && AllVersion1(c) && c.blocks != []
    ensures Chained(root, Shorter(c)) && AllVersion1(Shorter(c))
    ensures BlockVerifies(LastSigned(Shorter(c)), LastSigned(c)) && LastSigned(c).version == 1
    ensures Shorter(c).authority == c.authority && c.blocks == Shorter(c).blocks + [LastSigned(c)]
  {
    hide BlockVerifies, AuthorityVerifies;
    var d, n := Shorter(c), |c.blocks| - 1;
    forall i | 0 <= i < |d.blocks|
      ensures LinkVerifies(d, i)
    {
      assert LinkVerifies(c, i) && Before(d, i) == Before(c, i);
    }
    assert LinkVerifies(c, n);
    assert LastSigned(d) == Before(c, n);
    assert LastSigned(c) in c.blocks;
    forall b | b in d.blocks
      ensures b in c.blocks
    {
    }
  }

  /** A verified signature of version 1 determines the one before it as well. */
  lemma SignaturePinsPrevious(before: SignedBlock, x: SignedBlock, before': SignedBlock, y: SignedBlock)
    requires BlockVerifies(before, x) && BlockVerifies(before', y) && x.signature == y.signature && x.version == 1
    ensures x == y && before.signature == before'.signature
  {
    SignatureIdentifies(before, x, before', y);
    assert BlockPayload(x, before.signature) == BlockPayload(y, before'.signature);
  }

  /** No signature of version 1 is that of an authority block and of a later block. */
  lemma AuthorityIsNoLaterBlock(root: PublicKey, x: SignedBlock, before: SignedBlock, y: SignedBlock)
    requires AuthorityVerifies(root, x) && x.version == 1 && BlockVerifies(before, y) && y.version == 1
    ensures x.signature != y.signature
  {
    assert AuthorityPayload(x) != BlockPayload(y, before.signature);
  }

  lemma {:induction false} LastSignaturePins(root: PublicKey, a: Container, b: Container)
    requires Chained(root, a) && Chained(root, b) && AllVersion1(a) && AllVersion1(b)
    requires LastSigned(a).signature == LastSigned(b).signature
    ensures a.authority.(external := None) == b.authority.(external := None) && a.blocks == b.blocks
    decreases |a.blocks|
  {
    FirstIsChained(root, a);
    FirstIsChained(root, b);
    hide Chained, AllVersion1, AuthorityVerifies, BlockVerifies, LastSigned, Shorter;
    if a.blocks != [] {
      ShorterIsChained(root, a);
    }
    if b.blocks != [] {
      ShorterIsChained(root, b);
    }
    if a.blocks == [] && b.blocks == [] {
      AuthoritySignatureIdentifies(root, a.authority, b.authority);
    } else if a.blocks == [] {
      AuthorityIsNoLaterBlock(root, a.authority, LastSigned(Shorter(b)), LastSigned(b));
    } else if b.blocks == [] {
      AuthorityIsNoLaterBlock(root, b.authority, LastSigned(Shorter(a)), LastSigned(a));
    } else {
      SignaturePinsPrevious(LastSigned(Shorter(a)), LastSigned(a), LastSigned(Shorter(b)), LastSigned(b));
      LastSignaturePins(root, Shorter(a), Shorter(b));
    }
  }

  lemma FirstIsChained(root: PublicKey, c: Container)
    requires Chained(root, c) && AllVersion1(c)
    ensures AuthorityVerifies(root, c.authority) && c.authority.version == 1
    ensures c.blocks == [] ==> LastSigned(c) == c.authority
  {
  }

  /** The last signature of a token made of version 1 blocks pins all its signed parts. */
  lemma LastSignaturePinsToken(root: PublicKey, a: Container, b: Container)
    requires Accepted(root, a) && Accepted(root, b) && AllVersion1(a) && AllVersion1(b)
    ensures LastSigned(a).signature == LastSigned(b).signature <==> SignedPart(a) == SignedPart(b)
  {
    hide AuthorityVerifies, BlockVerifies, ProofVerifies, AllVersion1;
    if LastSigned(a).signature == LastSigned(b).signature {
      LastSignaturePins(root, a, b);
    }
  }
}
