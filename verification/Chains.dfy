/** What a token pins, and what can be made of it (biscuit.go): its proof belongs to its last block, each append hands
    over a fresh key, and whoever holds a token can only add to it. */
module Chains {
  import opened Wrappers
  import opened Symbols
  import opened Tokens

  // ---- What acceptance says of signers and proofs ----

  /** Each block of an accepted token is signed by the key the one before announces, the authority by the root key, over
      its own content and next key. */
  lemma AcceptedSigners(root: PublicKey, c: Container)
    requires Accepted(root, c)
    ensures c.authority.signature.signer == root && c.authority.signature.payload.block == c.authority.block
    ensures forall i :: 0 <= i < |c.blocks| ==>
              && c.blocks[i].signature.signer == Before(c, i).nextKey
              && c.blocks[i].signature.payload.block == c.blocks[i].block
              && (c.blocks[i].version == 1 ==>
                    c.blocks[i].signature.payload.BlockV1?
                    && c.blocks[i].signature.payload.previous == Before(c, i).signature)
  {
    forall i | 0 <= i < |c.blocks|
      ensures BlockVerifies(Before(c, i), c.blocks[i])
    {
      assert LinkVerifies(c, i);
    }
  }

  /** The external signature on a later block is by the key beside it, over the block and the signature before it. */
  lemma AcceptedExternals(root: PublicKey, c: Container, i: nat)
    requires Accepted(root, c) && i < |c.blocks| && c.blocks[i].external.Some?
    ensures var e := c.blocks[i].external.value;
            && e.signature.signer == e.publicKey && c.blocks[i].version == 1
            && e.signature.payload == ExternalV1(c.blocks[i].block, Before(c, i).signature)
  {
    assert LinkVerifies(c, i);
  }

  /** The proof of an accepted token is the secret of its last next key, or a signature by that key over its
      last block. */
  lemma AcceptedProof(root: PublicKey, c: Container)
    requires Accepted(root, c)
    ensures var last := LastSigned(c);
            match c.proof
            case NextSecret(k) => k == last.nextKey.key && k.KeyBytes?
            case FinalSignature(s) =>
              && s.signer == last.nextKey
              && s.payload == SealedPayload(last.nextKey.alg, last.block, last.nextKey.key, last.signature)
            case NoProof => false
  {
  }

  /** One final signature belongs to one last block, and to one token if all blocks are of version 1. */
  lemma FinalSignaturePins(root: PublicKey, a: Container, b: Container)
    requires Accepted(root, a) && Accepted(root, b) && a.proof.FinalSignature? && a.proof == b.proof
    ensures var x, y := LastSigned(a), LastSigned(b);
            x.block == y.block && x.nextKey == y.nextKey && x.signature == y.signature
    ensures AllVersion1(a) && AllVersion1(b) ==> SignedPart(a) == SignedPart(b)
  {
    AcceptedProof(root, a);
    AcceptedProof(root, b);
    hide Accepted, LastSigned, AllVersion1;
    if AllVersion1(a) && AllVersion1(b) {
      LastSignaturePinsToken(root, a, b);
    }
  }

  /** The first n of the later blocks, with another proof. */
  function Prefix(c: Container, n: nat, proof: Proof): Container
    requires n <= |c.blocks|
  {
    Container(c.authority, c.blocks[..n], proof)
  }

  /** A sealed token cannot be cut short under its final signature. */
  lemma SealedCannotBeCut(root: PublicKey, c: Container, n: nat)
    requires Accepted(root, c) && c.proof.FinalSignature? && AllVersion1(c) && n < |c.blocks|
    ensures !Accepted(root, Prefix(c, n, c.proof))
  {
    var d := Prefix(c, n, c.proof);
    forall b | b in d.blocks
      ensures b.version == 1
    {
      assert b in c.blocks;
    }
    assert |SignedPart(c).blocks| == |c.blocks| && |SignedPart(d).blocks| == n;
    hide Accepted;
    if Accepted(root, d) {
      FinalSignaturePins(root, c, d);
    }
  }

  // ---- Keys ----

  /** An append announces the fresh key and hands over its secret. */
  lemma AppendKeys(t: Token, block: Block, external: Option<External>, next: nat, salt: nat)
    requires Append(t, block, external, next, salt).Ok?
    ensures var c, d := t.container, Append(t, block, external, next, salt).value.container;
            && d.authority == c.authority && |d.blocks| == |c.blocks| + 1 && d.blocks[..|c.blocks|] == c.blocks
            && LastSigned(d).nextKey == PublicKey(LastSigned(c).nextKey.alg, KeyBytes(next))
            && d.proof == NextSecret(KeyBytes(next))
            && LastSigned(d).signature.signer == PublicKey(LastSigned(c).nextKey.alg, c.proof.key)
  {
    hide Disjoint, InternAll;
  }

  lemma NewKeys(root: PrivateKey, symbols: Table, authority: Block, next: nat, salt: nat)
    requires NewToken(root, symbols, authority, next, salt).Ok?
    ensures var c := NewToken(root, symbols, authority, next, salt).value.container;
            && c.authority.nextKey == PublicKey(root.alg, KeyBytes(next)) && c.proof == NextSecret(KeyBytes(next))
            && c.authority.signature.signer == PublicOf(root) && c.blocks == [] && c.authority.external == None
  {
    hide Disjoint, InternAll;
  }

  /** The secret handed over with an appended block does not open the token without it. */
  lemma StrippedIsRefused(root: PublicKey, t: Token, block: Block, external: Option<External>, next: nat, salt: nat)
    requires Accepted(root, t.container) && Append(t, block, external, next, salt).Ok?
    requires KeyBytes(next) != t.container.proof.key
    ensures !Accepted(root, t.container.(proof := Append(t, block, external, next, salt).value.container.proof))
  {
    AppendKeys(t, block, external, next, salt);
    AcceptedProof(root, t.container);
    var d := t.container.(proof := NextSecret(KeyBytes(next)));
    assert LastSigned(d) == LastSigned(t.container);
    hide Append;
  }

  // ---- What a holder can make ----

  /** The key that signs the block at a place: the root key for the authority, then what each block announces; the
      last one proves the token. */
  function KeyAt(root: PublicKey, c: Container, i: nat): PublicKey
    requires i <= |c.blocks| + 1
  {
    if i == 0 then root else if i == 1 then c.authority.nextKey else c.blocks[i - 2].nextKey
  }

  /** No two of them are the same. */
  ghost predicate KeysApart(root: PublicKey, c: Container) {
    forall i, j :: 0 <= i < j <= |c.blocks| + 1 ==> KeyAt(root, c, i) != KeyAt(root, c, j)
  }

  /** The signatures anyone can read off a token. */
  ghost predicate ReadOff(c: Container, s: Signature) {
    || s == c.authority.signature
    || (exists i :: 0 <= i < |c.blocks| && s == c.blocks[i].signature)
    || (exists i :: 0 <= i < |c.blocks| && c.blocks[i].external.Some? && s == c.blocks[i].external.value.signature)
    || c.proof == FinalSignature(s)
  }

  /** Signatures that are read off the token, or made with one of the keys. */
  ghost predicate CanGet(c: Container, keys: set<PublicKey>, s: Signature) { ReadOff(c, s) || s.signer in keys }

  /** A container put together from such signatures, and from these keys for a secret. */
  ghost predicate CanMake(c: Container, keys: set<PublicKey>, d: Container) {
    && CanGet(c, keys, d.authority.signature)
    && (forall i :: 0 <= i < |d.blocks| ==> CanGet(c, keys, d.blocks[i].signature))
    && (match d.proof
        case NextSecret(k) => PublicKey(LastSigned(d).nextKey.alg, k) in keys
        case FinalSignature(s) => CanGet(c, keys, s)
        case NoProof => true)
  }

  /** Of the keys of the chain, at most the last is among these. */
  ghost predicate Withheld(root: PublicKey, c: Container, keys: set<PublicKey>, n: nat)
    requires n <= |c.blocks| + 1
  {
    forall i :: 0 <= i <= n ==> KeyAt(root, c, i) !in keys
  }

  /** A signature read off an accepted token is by the key of its place; what is by one of the keys of the chain and is
      no external or final signature stands at that key's place. */
  lemma PlaceOf(root: PublicKey, c: Container, s: Signature, n: nat)
    requires Accepted(root, c) && KeysApart(root, c) && ReadOff(c, s) && n <= |c.blocks| + 1
    requires s.signer == KeyAt(root, c, n) && !s.payload.ExternalV1? && !s.payload.SealedPayload?
    ensures n <= |c.blocks| && s == if n == 0 then c.authority.signature else c.blocks[n - 1].signature
  {
    hide Accepted, KeysApart;
    if s == c.authority.signature {
      SamePlace(root, c, 0, n);
    } else {
      NotBeside(root, c, s);
      var i :| 0 <= i < |c.blocks| && s == c.blocks[i].signature;
      SamePlace(root, c, i + 1, n);
    }
  }

  /** A signature of another kind is neither an external nor the final one. */
  lemma NotBeside(root: PublicKey, c: Container, s: Signature)
    requires Accepted(root, c) && ReadOff(c, s) && !s.payload.ExternalV1? && !s.payload.SealedPayload?
    ensures s == c.authority.signature || exists i :: 0 <= i < |c.blocks| && s == c.blocks[i].signature
  {
    AcceptedProof(root, c);
    hide Accepted;
    forall i | 0 <= i < |c.blocks| && c.blocks[i].external.Some?
      ensures s != c.blocks[i].external.value.signature
    {
      AcceptedExternals(root, c, i);
    }
  }

  /** The signatures of a chain are by the keys of their places. */
  lemma SamePlace(root: PublicKey, c: Container, i: nat, n: nat)
    requires Accepted(root, c) && KeysApart(root, c) && i <= |c.blocks| && n <= |c.blocks| + 1
    requires KeyAt(root, c, n) == (if i == 0 then c.authority else c.blocks[i - 1]).signature.signer
    ensures i == n
  {
    AcceptedSigners(root, c);
    hide Accepted;
    assert KeyAt(root, c, i) == KeyAt(root, c, n);
  }

  /** The payload that a block's signature is over is that of no external and no final signature. */
  lemma BlockPayloads(root: PublicKey, c: Container)
    requires Accepted(root, c)
    ensures var p := c.authority.signature.payload; !p.ExternalV1? && !p.SealedPayload?
    ensures forall i :: 0 <= i < |c.blocks| ==>
              var p := c.blocks[i].signature.payload; !p.ExternalV1? && !p.SealedPayload?
  {
    forall i | 0 <= i < |c.blocks|
      ensures var p := c.blocks[i].signature.payload; !p.ExternalV1? && !p.SealedPayload?
    {
      assert LinkVerifies(c, i);
    }
  }

  /** A block of d that stands where the signatures of c are withheld is that of c. */
  lemma SameAuthority(root: PublicKey, c: Container, keys: set<PublicKey>, d: Container)
    requires Accepted(root, c) && Accepted(root, d) && KeysApart(root, c) && Withheld(root, c, keys, |c.blocks|)
    requires CanMake(c, keys, d)
    ensures d.authority.(external := None) == c.authority.(external := None)
  {
    AcceptedSigners(root, d);
    BlockPayloads(root, d);
    assert KeyAt(root, c, 0) == root && root !in keys;
    PlaceOf(root, c, d.authority.signature, 0);
    AuthoritySignatureIdentifies(root, d.authority, c.authority);
  }

  lemma SameBlock(root: PublicKey, c: Container, keys: set<PublicKey>, d: Container, i: nat)
    requires Accepted(root, c) && Accepted(root, d) && KeysApart(root, c) && Withheld(root, c, keys, |c.blocks|)
    requires CanMake(c, keys, d) && i < |c.blocks| && i <= |d.blocks|
    requires d.authority.(external := None) == c.authority.(external := None) && d.blocks[..i] == c.blocks[..i]
    ensures i < |d.blocks| && d.blocks[i] == c.blocks[i]
  {
    hide Accepted, KeysApart, Withheld, CanMake, ReadOff, BlockVerifies, KeyAt, LastSigned, Before;
    KeyBefore(root, c, keys, i);
    SameBefore(c, d, i);
    var k := KeyAt(root, c, i + 1);
    if i == |d.blocks| {
      NoFinalSignature(root, c, d, keys, k);
    } else {
      GotSignature(root, c, keys, d, i);
      PlaceOf(root, c, d.blocks[i].signature, i + 1);
      Links(root, c, i);
      Links(root, d, i);
      SignatureIdentifies(Before(d, i), d.blocks[i], Before(c, i), c.blocks[i]);
    }
  }

  lemma GotSignature(root: PublicKey, c: Container, keys: set<PublicKey>, d: Container, i: nat)
    requires Accepted(root, d) && CanMake(c, keys, d) && i < |d.blocks|
    ensures var s := d.blocks[i].signature;
            && CanGet(c, keys, s) && s.signer == Before(d, i).nextKey
            && !s.payload.ExternalV1? && !s.payload.SealedPayload?
  {
    AcceptedSigners(root, d);
    BlockPayloads(root, d);
    hide Accepted, ReadOff;
  }

  lemma KeyBefore(root: PublicKey, c: Container, keys: set<PublicKey>, i: nat)
    requires KeysApart(root, c) && Withheld(root, c, keys, |c.blocks|) && i < |c.blocks|
    ensures var k := KeyAt(root, c, i + 1); k == Before(c, i).nextKey && k !in keys && k != LastSigned(c).nextKey
  {
    assert KeyAt(root, c, |c.blocks| + 1) == LastSigned(c).nextKey;
  }

  lemma SameBefore(c: Container, d: Container, i: nat)
    requires i < |c.blocks| && i <= |d.blocks|
    requires d.authority.(external := None) == c.authority.(external := None) && d.blocks[..i] == c.blocks[..i]
    ensures var b := if i == |d.blocks| then LastSigned(d) else Before(d, i); b.nextKey == Before(c, i).nextKey
  {
    assert i > 0 ==> d.blocks[i - 1] == d.blocks[..i][i - 1] && c.blocks[i - 1] == c.blocks[..i][i - 1];
  }

  lemma Links(root: PublicKey, c: Container, i: nat)
    requires Accepted(root, c) && i < |c.blocks|
    ensures BlockVerifies(Before(c, i), c.blocks[i])
  {
    assert LinkVerifies(c, i);
  }

  /** No proof for a key of the chain other than the last can be made. */
  lemma NoFinalSignature(root: PublicKey, c: Container, d: Container, keys: set<PublicKey>, k: PublicKey)
    requires Accepted(root, c) && Accepted(root, d) && CanMake(c, keys, d)
    requires LastSigned(d).nextKey == k && k !in keys
    ensures LastSigned(c).nextKey == k && c.proof.FinalSignature?
  {
    AcceptedProof(root, c);
    AcceptedProof(root, d);
    BlockPayloads(root, c);
    match d.proof
    case FinalSignature(s) =>
      assert ReadOff(c, s);
      forall i | 0 <= i < |c.blocks| && c.blocks[i].external.Some?
        ensures s != c.blocks[i].external.value.signature
      {
        AcceptedExternals(root, c, i);
      }
    case NextSecret(_) =>
  }

  /** Who holds an accepted token, with keys that are none of those that signed its blocks, can make nothing of it that
      is accepted but what begins with all its blocks: none can be dropped, changed, or replaced. */
  lemma OnlyExtensions(root: PublicKey, c: Container, keys: set<PublicKey>, d: Container)
    requires Accepted(root, c) && KeysApart(root, c) && Withheld(root, c, keys, |c.blocks|)
    requires Accepted(root, d) && CanMake(c, keys, d)
    ensures d.authority.(external := None) == c.authority.(external := None) && c.blocks <= d.blocks
  {
    SameAuthority(root, c, keys, d);
    hide Accepted, KeysApart, Withheld, CanMake;
    var i := 0;
    while i < |c.blocks|
      invariant i <= |c.blocks| && i <= |d.blocks| && d.blocks[..i] == c.blocks[..i]
    {
      SameBlock(root, c, keys, d, i);
      assert d.blocks[..i + 1] == d.blocks[..i] + [d.blocks[i]] && c.blocks[..i + 1] == c.blocks[..i] + [c.blocks[i]];
      i := i + 1;
    }
    assert c.blocks[..i] == c.blocks;
  }

  /** If the token is sealed, and its last next key is withheld too, nothing can be added either. */
  lemma SealedStays(root: PublicKey, c: Container, keys: set<PublicKey>, d: Container)
    requires Accepted(root, c) && KeysApart(root, c) && Withheld(root, c, keys, |c.blocks| + 1)
    requires Accepted(root, d) && CanMake(c, keys, d)
    ensures SignedPart(d) == SignedPart(c) && c.proof.FinalSignature?
  {
    OnlyExtensions(root, c, keys, d);
    var n := |c.blocks|;
    var k := KeyAt(root, c, n + 1);
    assert k !in keys && k == LastSigned(c).nextKey;
    hide Accepted, KeysApart, Withheld, ReadOff, LastSigned;
    if |d.blocks| > n {
      NothingAfter(root, c, keys, d);
    } else {
      assert d.blocks == c.blocks;
      SameLast(c, d);
      NoFinalSignature(root, c, d, keys, k);
    }
  }

  lemma SameLast(c: Container, d: Container)
    requires d.authority.(external := None) == c.authority.(external := None) && d.blocks == c.blocks
    ensures LastSigned(d).nextKey == LastSigned(c).nextKey && SignedPart(d) == SignedPart(c)
  {
  }

  /** No block can be signed with the last next key if it is withheld. */
  lemma NothingAfter(root: PublicKey, c: Container, keys: set<PublicKey>, d: Container)
    requires Accepted(root, c) && KeysApart(root, c) && KeyAt(root, c, |c.blocks| + 1) !in keys
    requires Accepted(root, d) && CanMake(c, keys, d)
    requires d.authority.(external := None) == c.authority.(external := None) && c.blocks <= d.blocks
    ensures |d.blocks| == |c.blocks|
  {
    var n := |c.blocks|;
    AcceptedSigners(root, d);
    BlockPayloads(root, d);
    hide Accepted, KeysApart, ReadOff;
    if |d.blocks| > n {
      NextAfter(root, c, d);
      PlaceOf(root, c, d.blocks[n].signature, n + 1);
    }
  }

  lemma NextAfter(root: PublicKey, c: Container, d: Container)
    requires d.authority.(external := None) == c.authority.(external := None) && c.blocks <= d.blocks
    requires |d.blocks| > |c.blocks|
    ensures Before(d, |c.blocks|).nextKey == KeyAt(root, c, |c.blocks| + 1)
  {
    var n := |c.blocks|;
    assert n > 0 ==> d.blocks[n - 1] == c.blocks[n - 1];
  }

  // ---- Runs with fresh keys ----

  /** No two places have the same key bytes, of whatever algorithm. */
  ghost predicate SecretsApart(root: PublicKey, c: Container) {
    forall i, j :: 0 <= i < j <= |c.blocks| + 1 ==> KeyAt(root, c, i).key != KeyAt(root, c, j).key
  }

  lemma ApartBySecrets(root: PublicKey, c: Container)
    requires SecretsApart(root, c)
    ensures KeysApart(root, c)
  {
  }

  /** The proof of a token opens no shorter chain. */
  lemma CutIsRefused(root: PublicKey, c: Container, n: nat)
    requires Accepted(root, c) && SecretsApart(root, c) && n < |c.blocks|
    ensures !Accepted(root, Prefix(c, n, c.proof))
  {
    var d := Prefix(c, n, c.proof);
    assert KeyAt(root, c, n + 1) == LastSigned(d).nextKey && KeyAt(root, c, |c.blocks| + 1) == LastSigned(c).nextKey;
    AcceptedProof(root, c);
    if Accepted(root, d) {
      AcceptedProof(root, d);
      assert false;
    }
  }

  /** The key bytes at all the places. */
  function KeysOf(root: PublicKey, c: Container): set<KeyBytes> {
    set i | 0 <= i <= |c.blocks| + 1 :: KeyAt(root, c, i).key
  }

  /** The key that an act generates, if it does. */
  function NextOf(act: Act): set<KeyBytes> {
    match act
    case AppendBlock(_, next, _) => {KeyBytes(next)}
    case AppendContents(_, next, _) => {KeyBytes(next)}
    case SealToken(_) => {}
  }

  /** Every key generated is new. */
  predicate FreshRun(used: set<KeyBytes>, acts: seq<Act>)
    decreases |acts|
  {
    acts != [] ==> NextOf(acts[0]) !! used && FreshRun(used + NextOf(acts[0]), acts[1..])
  }

  lemma OneMoreKey(root: PublicKey, c: Container, d: Container)
    requires SecretsApart(root, c) && d.authority == c.authority && |d.blocks| == |c.blocks| + 1
    requires d.blocks[..|c.blocks|] == c.blocks && LastSigned(d).nextKey.key !in KeysOf(root, c)
    ensures SecretsApart(root, d) && KeysOf(root, d) == KeysOf(root, c) + {LastSigned(d).nextKey.key}
  {
    var n := |c.blocks|;
    forall i | 0 <= i <= n + 1
      ensures KeyAt(root, d, i) == KeyAt(root, c, i) && KeyAt(root, c, i).key in KeysOf(root, c)
    {
      assert i > 1 ==> d.blocks[i - 2] == d.blocks[..n][i - 2];
    }
    assert KeyAt(root, d, n + 2) == LastSigned(d).nextKey;
    forall i | 0 <= i <= n + 2
      ensures KeyAt(root, d, i).key in KeysOf(root, d)
    {
    }
    hide KeyAt;
  }

  lemma PerformKeys(root: PublicKey, t: Token, act: Act)
    requires Perform(t, act).Ok? && SecretsApart(root, t.container) && NextOf(act) !! KeysOf(root, t.container)
    ensures var d := Perform(t, act).value.container;
            SecretsApart(root, d) && KeysOf(root, d) == KeysOf(root, t.container) + NextOf(act)
  {
    match act
    case AppendBlock(block, next, salt) =>
      AppendKeys(t, block, None, next, salt);
      hide Append, SecretsApart, KeysOf;
      OneMoreKey(root, t.container, Perform(t, act).value.container);
    case AppendContents(contents, next, salt) =>
      hide ExternalVerifies;
      AppendKeys(t, contents.payload, contents.external, next, salt);
      hide Append, SecretsApart, KeysOf;
      OneMoreKey(root, t.container, Perform(t, act).value.container);
    case SealToken(salt) =>
      SealKeeps(t, salt);
      var c, d := t.container, Seal(t, salt).value.container;
      forall i | 0 <= i <= |c.blocks| + 1
        ensures KeyAt(root, d, i) == KeyAt(root, c, i)
      {
      }
  }

  lemma SealKeeps(t: Token, salt: nat)
    requires Seal(t, salt).Ok?
    ensures var c, d := t.container, Seal(t, salt).value.container;
            && d.authority == c.authority && d.blocks == c.blocks
            && d.proof == FinalSignature(Sign(PrivateKey(LastSigned(c).nextKey.alg, c.proof.key.id),
                                              SealPayload(LastSigned(c)), salt))
  {
  }

  lemma {:induction false} RunKeepsSecretsApart(root: PublicKey, t: Token, acts: seq<Act>)
    requires PerformAll(t, acts).Ok? && SecretsApart(root, t.container) && FreshRun(KeysOf(root, t.container), acts)
    ensures SecretsApart(root, PerformAll(t, acts).value.container)
    decreases |acts|
  {
    hide Perform, SecretsApart, KeysOf, NextOf;
    if acts != [] {
      PerformKeys(root, t, acts[0]);
      RunKeepsSecretsApart(root, Perform(t, acts[0]).value, acts[1..]);
    }
  }

  /** A token made by create, append, third-party append and seal with fresh keys has them all apart, so that its proof
      opens no shorter chain. */
  lemma FreshTokenCannotBeCut(root: PrivateKey, symbols: Table, authority: Block, next: nat, salt: nat, acts: seq<Act>,
                              n: nat)
    requires NewToken(root, symbols, authority, next, salt).Ok? && next != root.id
    requires PerformAll(NewToken(root, symbols, authority, next, salt).value, acts).Ok?
    requires FreshRun({KeyBytes(root.id), KeyBytes(next)}, acts)
    ensures var c := PerformAll(NewToken(root, symbols, authority, next, salt).value, acts).value.container;
            && SecretsApart(PublicOf(root), c)
            && (n < |c.blocks| ==> !Accepted(PublicOf(root), Prefix(c, n, c.proof)))
  {
    var t := NewToken(root, symbols, authority, next, salt).value;
    NewKeys(root, symbols, authority, next, salt);
    assert KeyAt(PublicOf(root), t.container, 0).key == KeyBytes(root.id);
    assert KeyAt(PublicOf(root), t.container, 1).key == KeyBytes(next);
    assert KeysOf(PublicOf(root), t.container) == {KeyBytes(root.id), KeyBytes(next)};
    RunKeepsSecretsApart(PublicOf(root), t, acts);
    ReachableIsAccepted(root, symbols, authority, next, salt, acts);
    hide NewToken, PerformAll, Accepted, SecretsApart;
    var c := PerformAll(t, acts).value.container;
    if n < |c.blocks| {
      CutIsRefused(PublicOf(root), c, n);
    }
  }

  // ---- What is made, and when ----

  /** A token is made exactly from a root key of a known algorithm and a block that brings no symbol of the table; it
      knows the symbols of both. */
  lemma NewOutcome(root: PrivateKey, symbols: Table, authority: Block, next: nat, salt: nat)
    ensures var r := NewToken(root, symbols, authority, next, salt);
            && (r.Ok? <==> root.alg != OtherAlgorithm && forall s :: s in symbols ==> s !in authority.symbols)
            && (r.Ok? ==> r.value.container.authority.block == authority
                          && r.value.container.authority.version == 1
                          && symbols <= r.value.symbols
                          && forall s :: Known(r.value.symbols, s) <==> Known(symbols, s) || s in authority.symbols)
  {
    InternAllGrows(symbols, authority.symbols);
    hide InternAll, Known;
  }

  /** A first-party block brings its symbols into the table of the token; a third-party block leaves it as it is. */
  lemma AppendSymbols(t: Token, block: Block, external: Option<External>, next: nat, salt: nat)
    requires Append(t, block, external, next, salt).Ok?
    ensures var d := Append(t, block, external, next, salt).value;
            && LastSigned(d.container).block == block && LastSigned(d.container).external == external
            && LastSigned(d.container).version == 1
            && (external.Some? ==> d.symbols == t.symbols)
            && (external.None? ==>
                  && t.symbols <= d.symbols
                  && forall s :: Known(d.symbols, s) <==> Known(t.symbols, s) || s in block.symbols)
  {
    InternAllGrows(t.symbols, block.symbols);
    hide InternAll, Known, Disjoint;
  }

  /** Third-party contents are taken exactly by an open token whose last signature they were signed for, under the key
      they bring, in a Datalog version of 5 or 6, and if they share no symbol with it. */
  lemma ThirdPartyOutcome(root: PublicKey, t: Token, contents: ThirdPartyContents, next: nat, salt: nat)
    requires Accepted(root, t.container)
    ensures AppendThirdParty(t, contents, next, salt).Ok? <==>
              && t.container.proof.NextSecret? && contents.external.Some?
              && (var e := contents.external.value;
                  && e.publicKey.alg != OtherAlgorithm && e.publicKey.key.KeyBytes?
                  && e.signature.signer == e.publicKey
                  && e.signature.payload == ExternalV1(contents.payload, LastSigned(t.container).signature))
              && 5 <= contents.payload.version <= 6
              && forall s :: s in t.symbols ==> s !in contents.payload.symbols
  {
    hide Accepted, InternAll, LastSigned;
    if contents.external.Some?
       && ExternalVerifies(contents.payload, LastSigned(t.container).signature, contents.external.value, 1) {
      AppendOutcome(root, t, contents.payload, contents.external, next, salt);
    }
  }

  /** Every block made here carries a signature of version 1. */
  lemma {:induction false} RunKeepsVersion1(t: Token, acts: seq<Act>)
    requires PerformAll(t, acts).Ok? && AllVersion1(t.container)
    ensures AllVersion1(PerformAll(t, acts).value.container)
    decreases |acts|
  {
    if acts != [] {
      var next := Perform(t, acts[0]).value;
      hide Disjoint, InternAll, ExternalVerifies;
      assert AllVersion1(next.container);
      hide Perform, AllVersion1;
      RunKeepsVersion1(next, acts[1..]);
    }
  }
}
