/** Saving what an authorizer holds to a message and loading it back (authorizer.go). */
module Policies {
  import opened Wrappers
  import opened Types
  import opened Symbols
  import opened Interning
  import opened Messages
  import opened Authorization

  type SFact = Fact<string>
  type SRule = Rule<string>
  type SCheck = Check<string>

  datatype PPolicy = PPolicy(allow: bool, queries: seq<PRule>)

  /** The message: its own symbols, and no public keys. */
  datatype PPolicies = PPolicies(symbols: Table, version: nat, facts: seq<PPredicate>, rules: seq<PRule>,
                                 checks: seq<PCheck>, policies: seq<PPolicy>)

  const MIN_SCHEMA: nat := 3
  const MAX_SCHEMA: nat := 6

  // ---- Loading ----

  function LoadFact(t: Table, p: PPredicate): Option<SFact> {
    match DecodePredicate(p)
    case None => None
    case Some(f) => Some(ResolvePredicate(t, f))
  }

  predicate KeyScoped(scopes: seq<Scope>) { exists s :: s in scopes && s.PublicKeyScope? }

  /** fromDatalogRule, with an empty table of public keys: no key scope can be resolved. */
  function LoadRule(t: Table, p: PRule): Option<SRule> {
    match DecodeRule(p)
    case None => None
    case Some(r) => if KeyScoped(r.scopes) then None else Some(ResolveRule(t, r))
  }

  function RuleLoader(t: Table): PRule -> Option<SRule> { p => LoadRule(t, p) }

  /** fromDatalogCheck. */
  function LoadCheck(t: Table, p: PCheck): Option<SCheck> {
    match DecodeCheck(p)
    case None => None
    case Some(c) =>
      if exists i :: 0 <= i < |c.queries| && KeyScoped(c.queries[i].scopes) then None else Some(ResolveCheck(t, c))
  }

  function LoadPolicy(t: Table, p: PPolicy): Option<Policy> {
    match MapAll(RuleLoader(t), p.queries)
    case None => None
    case Some(queries) => Some(Policy(queries, if p.allow then Allow else Deny))
  }

  function FactLoader(t: Table): PPredicate -> Option<SFact> { p => LoadFact(t, p) }

  function CheckLoader(t: Table): PCheck -> Option<SCheck> { p => LoadCheck(t, p) }

  function PolicyLoader(t: Table): PPolicy -> Option<Policy> { p => LoadPolicy(t, p) }

  /** What an authorizer is built from, its own scopes left out. */
  datatype Contents = Contents(facts: seq<SFact>, rules: seq<SRule>, checks: seq<SCheck>, policies: seq<Policy>)

  function Loaded(m: PPolicies): Option<Contents> {
    if !(MIN_SCHEMA <= m.version <= MAX_SCHEMA) then None
    else
      match (MapAll(FactLoader(m.symbols), m.facts), MapAll(RuleLoader(m.symbols), m.rules),
             MapAll(CheckLoader(m.symbols), m.checks), MapAll(PolicyLoader(m.symbols), m.policies))
      case (Some(facts), Some(rules), Some(checks), Some(policies)) => Some(Contents(facts, rules, checks, policies))
      case _ => None
  }

  // ---- Messages that stand for named values ----

  predicate FactStands(t: Table, p: PPredicate, f: SFact) {
    DecodePredicate(p).Some? && DefinedPredicate(t, DecodePredicate(p).value) && LoadFact(t, p) == Some(f)
  }

  predicate FactsStand(t: Table, ps: seq<PPredicate>, fs: seq<SFact>) {
    |ps| == |fs| && forall i :: 0 <= i < |ps| ==> FactStands(t, ps[i], fs[i])
  }

  predicate RuleStands(t: Table, p: PRule, r: SRule) {
    DecodeRule(p).Some? && DefinedRule(t, DecodeRule(p).value) && ResolveRule(t, DecodeRule(p).value) == r
  }

  predicate RulesStand(t: Table, ps: seq<PRule>, rs: seq<SRule>) {
    |ps| == |rs| && forall i :: 0 <= i < |ps| ==> RuleStands(t, ps[i], rs[i])
  }

  predicate CheckStands(t: Table, p: PCheck, c: SCheck) {
    && DecodeCheck(p).Some?
    && DefinedRules(t, DecodeCheck(p).value.queries)
    && ResolveCheck(t, DecodeCheck(p).value) == c
  }

  predicate ChecksStand(t: Table, ps: seq<PCheck>, cs: seq<SCheck>) {
    |ps| == |cs| && forall i :: 0 <= i < |ps| ==> CheckStands(t, ps[i], cs[i])
  }

  predicate PolicyStands(t: Table, p: PPolicy, q: Policy) {
    RulesStand(t, p.queries, q.queries) && (if p.allow then Allow else Deny) == q.kind
  }

  predicate PoliciesStand(t: Table, ps: seq<PPolicy>, qs: seq<Policy>) {
    |ps| == |qs| && forall i :: 0 <= i < |ps| ==> PolicyStands(t, ps[i], qs[i])
  }

  lemma FactsStandLater(t: Table, t': Table, ps: seq<PPredicate>, fs: seq<SFact>)
    requires t <= t' && FactsStand(t, ps, fs)
    ensures FactsStand(t', ps, fs)
  {
    hide DecodePredicate, DefinedPredicate, ResolvePredicate;
    forall i | 0 <= i < |ps|
      ensures FactStands(t', ps[i], fs[i])
    {
      assert FactStands(t, ps[i], fs[i]);
      PredicateGrows(t, t', DecodePredicate(ps[i]).value);
    }
  }

  lemma RulesStandLater(t: Table, t': Table, ps: seq<PRule>, rs: seq<SRule>)
    requires t <= t' && RulesStand(t, ps, rs)
    ensures RulesStand(t', ps, rs)
  {
    hide DecodeRule, DefinedRule, ResolveRule;
    forall i | 0 <= i < |ps|
      ensures RuleStands(t', ps[i], rs[i])
    {
      assert RuleStands(t, ps[i], rs[i]);
      RuleGrows(t, t', DecodeRule(ps[i]).value);
    }
  }

  lemma ChecksStandLater(t: Table, t': Table, ps: seq<PCheck>, cs: seq<SCheck>)
    requires t <= t' && ChecksStand(t, ps, cs)
    ensures ChecksStand(t', ps, cs)
  {
    hide DecodeCheck, DefinedRules, ResolveRules;
    forall i | 0 <= i < |ps|
      ensures CheckStands(t', ps[i], cs[i])
    {
      assert CheckStands(t, ps[i], cs[i]);
      RulesGrow(t, t', DecodeCheck(ps[i]).value.queries);
    }
  }

  lemma PoliciesStandLater(t: Table, t': Table, ps: seq<PPolicy>, qs: seq<Policy>)
    requires t <= t' && PoliciesStand(t, ps, qs)
    ensures PoliciesStand(t', ps, qs)
  {
    hide RulesStand;
    forall i | 0 <= i < |ps|
      ensures PolicyStands(t', ps[i], qs[i])
    {
      assert PolicyStands(t, ps[i], qs[i]);
      RulesStandLater(t, t', ps[i].queries, qs[i].queries);
    }
  }

  // ---- What is written whatever becomes of the names ----

  /** The message can be read, and its variables have ids of 32 bits. */
  ghost predicate FactWritten(p: PPredicate) {
    DecodePredicate(p).Some? && Small(VarsInTerms(DecodePredicate(p).value.terms))
  }

  ghost predicate FactsWritten(ps: seq<PPredicate>, n: nat) {
    |ps| == n && forall i :: 0 <= i < |ps| ==> FactWritten(ps[i])
  }

  ghost predicate RuleWritten(p: PRule, r: SRule) {
    DecodeRule(p).Some? && DecodeRule(p).value.scopes == r.scopes && Small(VarsInRule(DecodeRule(p).value))
  }

  ghost predicate RulesWritten(ps: seq<PRule>, rs: seq<SRule>) {
    |ps| == |rs| && forall i :: 0 <= i < |ps| ==> RuleWritten(ps[i], rs[i])
  }

  ghost predicate CheckWritten(p: PCheck, c: SCheck) {
    && DecodeCheck(p).Some?
    && var qs := DecodeCheck(p).value.queries;
       && |qs| == |c.queries| && Small(VarsInRules(qs))
       && forall i :: 0 <= i < |qs| ==> qs[i].scopes == c.queries[i].scopes
  }

  ghost predicate ChecksWritten(ps: seq<PCheck>, cs: seq<SCheck>) {
    |ps| == |cs| && forall i :: 0 <= i < |ps| ==> CheckWritten(ps[i], cs[i])
  }

  ghost predicate PoliciesWritten(ps: seq<PPolicy>, qs: seq<Policy>) {
    |ps| == |qs| && forall i :: 0 <= i < |ps| ==> RulesWritten(ps[i].queries, qs[i].queries)
  }

  ghost function VarsInChecks(cs: seq<SCheck>): set<string> { set c, v | c in cs && v in VarsInRules(c.queries) :: v }

  ghost function VarsInPolicies(qs: seq<Policy>): set<string> { set q, v | q in qs && v in VarsInRules(q.queries) :: v }

  // ---- Saving ----

  method SaveFact(f: SFact, table: SymbolTable) returns (r: Option<PPredicate>)
    modifies table
    ensures Grows(old(table.entries), table.entries)
    ensures r.Some? <==> EncodableTerms(f.terms)
    ensures r.Some? ==> FactWritten(r.value)
    ensures r.Some? && NamesFit(table.entries, VarsInTerms(f.terms)) ==> FactStands(table.entries, r.value, f)
  {
    hide NoDup, EncodableTerms, DecodePredicate, DefinedTerms, ResolveTerms, StrOf, Defined;
    var dl := ConvertPredicate(f, table);
    r := EncodePredicate(dl);
  }

  method SaveFacts(fs: seq<SFact>, table: SymbolTable) returns (r: Option<seq<PPredicate>>)
    modifies table
    ensures Grows(old(table.entries), table.entries)
    ensures r.Some? <==> EncodablePredicates(fs)
    ensures r.Some? ==> FactsWritten(r.value, |fs|)
    ensures r.Some? && NamesFit(table.entries, VarsInPredicates(fs)) ==> FactsStand(table.entries, r.value, fs)
  {
    hide NoDup, EncodableTerms, FactStands, FactWritten, VarsInTerms;
    var ps: seq<PPredicate> := [];
    for i := 0 to |fs|
      invariant Grows(old(table.entries), table.entries)
      invariant FactsWritten(ps, i) && forall k :: 0 <= k < i ==> EncodableTerms(fs[k].terms)
      invariant NamesFit(table.entries, VarsInPredicates(fs)) ==> FactsStand(table.entries, ps, fs[..i])
    {
      ghost var before := table.entries;
      var p := SaveFact(fs[i], table);
      if p.None? {
        return None;
      }
      assert VarsInTerms(fs[i].terms) <= VarsInPredicates(fs);
      FitBefore(before, table.entries, VarsInPredicates(fs), VarsInTerms(fs[i].terms));
      FitBefore(before, table.entries, VarsInPredicates(fs), VarsInPredicates(fs));
      if NamesFit(table.entries, VarsInPredicates(fs)) {
        FactsStandLater(before, table.entries, ps, fs[..i]);
      }
      ps := ps + [p.value];
    }
    assert fs[..|fs|] == fs;
    r := Some(ps);
  }

  method SaveRule(x: SRule, table: SymbolTable) returns (r: Option<PRule>)
    modifies table
    ensures Grows(old(table.entries), table.entries)
    ensures r.Some? <==> EncodableRule(x)
    ensures r.Some? ==> RuleWritten(r.value, x)
    ensures r.Some? && NamesFit(table.entries, VarsInRule(x)) ==> RuleStands(table.entries, r.value, x)
  {
    hide NoDup, EncodableRule, DecodeRule, DefinedRule, ResolveRule;
    var dl := ConvertRule(x, table);
    r := EncodeRule(dl);
  }

  method SaveRules(xs: seq<SRule>, table: SymbolTable) returns (r: Option<seq<PRule>>)
    modifies table
    ensures Grows(old(table.entries), table.entries)
    ensures r.Some? <==> EncodableRules(xs)
    ensures r.Some? ==> RulesWritten(r.value, xs)
    ensures r.Some? && NamesFit(table.entries, VarsInRules(xs)) ==> RulesStand(table.entries, r.value, xs)
  {
    hide NoDup, EncodableRule, RuleStands, RuleWritten, VarsInRule;
    var ps: seq<PRule> := [];
    for i := 0 to |xs|
      invariant Grows(old(table.entries), table.entries)
      invariant RulesWritten(ps, xs[..i]) && forall k :: 0 <= k < i ==> EncodableRule(xs[k])
      invariant NamesFit(table.entries, VarsInRules(xs)) ==> RulesStand(table.entries, ps, xs[..i])
    {
      ghost var before := table.entries;
      var p := SaveRule(xs[i], table);
      if p.None? {
        return None;
      }
      assert VarsInRule(xs[i]) <= VarsInRules(xs);
      FitBefore(before, table.entries, VarsInRules(xs), VarsInRule(xs[i]));
      FitBefore(before, table.entries, VarsInRules(xs), VarsInRules(xs));
      if NamesFit(table.entries, VarsInRules(xs)) {
        RulesStandLater(before, table.entries, ps, xs[..i]);
      }
      ps := ps + [p.value];
    }
    assert xs[..|xs|] == xs;
    r := Some(ps);
  }

  predicate EncodableChecks(cs: seq<SCheck>) { forall i :: 0 <= i < |cs| ==> EncodableRules(cs[i].queries) }

  method SaveCheck(c: SCheck, table: SymbolTable) returns (r: Option<PCheck>)
    modifies table
    ensures Grows(old(table.entries), table.entries)
    ensures r.Some? <==> EncodableRules(c.queries)
    ensures r.Some? ==> CheckWritten(r.value, c)
    ensures r.Some? && NamesFit(table.entries, VarsInRules(c.queries)) ==> CheckStands(table.entries, r.value, c)
  {
    hide NoDup, EncodableRules, DecodeCheck, DefinedRules, ResolveRules;
    var dl := ConvertCheck(c, table);
    r := EncodeCheck(dl);
  }

  method SaveChecks(cs: seq<SCheck>, table: SymbolTable) returns (r: Option<seq<PCheck>>)
    modifies table
    ensures Grows(old(table.entries), table.entries)
    ensures r.Some? <==> EncodableChecks(cs)
    ensures r.Some? ==> ChecksWritten(r.value, cs)
    ensures r.Some? && NamesFit(table.entries, VarsInChecks(cs)) ==> ChecksStand(table.entries, r.value, cs)
  {
    hide NoDup, EncodableRules, CheckStands, CheckWritten, VarsInRules;
    var ps: seq<PCheck> := [];
    for i := 0 to |cs|
      invariant Grows(old(table.entries), table.entries)
      invariant ChecksWritten(ps, cs[..i]) && forall k :: 0 <= k < i ==> EncodableRules(cs[k].queries)
      invariant NamesFit(table.entries, VarsInChecks(cs)) ==> ChecksStand(table.entries, ps, cs[..i])
    {
      ghost var before := table.entries;
      var p := SaveCheck(cs[i], table);
      if p.None? {
        return None;
      }
      assert VarsInRules(cs[i].queries) <= VarsInChecks(cs);
      FitBefore(before, table.entries, VarsInChecks(cs), VarsInRules(cs[i].queries));
      FitBefore(before, table.entries, VarsInChecks(cs), VarsInChecks(cs));
      if NamesFit(table.entries, VarsInChecks(cs)) {
        ChecksStandLater(before, table.entries, ps, cs[..i]);
      }
      ps := ps + [p.value];
    }
    assert cs[..|cs|] == cs;
    r := Some(ps);
  }

  predicate EncodablePolicies(qs: seq<Policy>) { forall i :: 0 <= i < |qs| ==> EncodableRules(qs[i].queries) }

  method SavePolicies(qs: seq<Policy>, table: SymbolTable) returns (r: Option<seq<PPolicy>>)
    modifies table
    ensures Grows(old(table.entries), table.entries)
    ensures r.Some? <==> EncodablePolicies(qs)
    ensures r.Some? ==> PoliciesWritten(r.value, qs)
    ensures r.Some? && NamesFit(table.entries, VarsInPolicies(qs)) ==> PoliciesStand(table.entries, r.value, qs)
  {
    hide NoDup, EncodableRules, RulesStand, RulesWritten, VarsInRules;
    var ps: seq<PPolicy> := [];
    for i := 0 to |qs|
      invariant Grows(old(table.entries), table.entries)
      invariant PoliciesWritten(ps, qs[..i]) && forall k :: 0 <= k < i ==> EncodableRules(qs[k].queries)
      invariant NamesFit(table.entries, VarsInPolicies(qs)) ==> PoliciesStand(table.entries, ps, qs[..i])
    {
      ghost var before := table.entries;
      var queries := SaveRules(qs[i].queries, table);
      if queries.None? {
        return None;
      }
      assert VarsInRules(qs[i].queries) <= VarsInPolicies(qs);
      FitBefore(before, table.entries, VarsInPolicies(qs), VarsInRules(qs[i].queries));
      FitBefore(before, table.entries, VarsInPolicies(qs), VarsInPolicies(qs));
      if NamesFit(table.entries, VarsInPolicies(qs)) {
        PoliciesStandLater(before, table.entries, ps, qs[..i]);
      }
      ps := ps + [PPolicy(qs[i].kind == Allow, queries.value)];
    }
    assert qs[..|qs|] == qs;
    r := Some(ps);
  }

  // ---- The builder ----

  predicate Encodable(c: Contents) {
    EncodablePredicates(c.facts) && EncodableRules(c.rules) && EncodableChecks(c.checks) &&
        EncodablePolicies(c.policies)
  }

  /** All the variables in these contents. */
  ghost function VarsInContents(c: Contents): set<string> {
    VarsInPredicates(c.facts) + VarsInRules(c.rules) + VarsInChecks(c.checks) + VarsInPolicies(c.policies)
  }

  /** A message written from these contents, whatever became of their names. */
  ghost predicate IsWritten(m: PPolicies, c: Contents) {
    && FactsWritten(m.facts, |c.facts|) && RulesWritten(m.rules, c.rules)
    && ChecksWritten(m.checks, c.checks) && PoliciesWritten(m.policies, c.policies)
    && m.version == MAX_SCHEMA && NoDup(m.symbols)
  }

  /** A message saved from these contents. */
  predicate Saved(m: PPolicies, c: Contents) {
    && FactsStand(m.symbols, m.facts, c.facts) && RulesStand(m.symbols, m.rules, c.rules)
    && ChecksStand(m.symbols, m.checks, c.checks) && PoliciesStand(m.symbols, m.policies, c.policies)
    && m.version == MAX_SCHEMA
  }

  lemma NothingTwice()
    ensures NoDup([])
  {
  }

  class Builder {
    var facts: seq<SFact>
    var rules: seq<SRule>
    var checks: seq<SCheck>
    var policies: seq<Policy>
    var scopes: seq<Scope>

    constructor ()
      ensures Holds() == Contents([], [], [], []) && scopes == []
    {
      facts, rules, checks, policies, scopes := [], [], [], [], [];
    }

    function Holds(): Contents
      reads this
    {
      Contents(facts, rules, checks, policies)
    }

    /** Everything but the scopes is saved; None when some set cannot be written. The symbols
        used are those of the message, or those issued up to the failure. */
    method SerializePolicies() returns (r: Option<PPolicies>, used: Table)
      ensures r.Some? ==> used == r.value.symbols
      ensures r.Some? <==> Encodable(Holds())
      ensures r.Some? ==> IsWritten(r.value, Holds())
      ensures r.Some? && NamesFit(used, VarsInContents(Holds())) ==> Saved(r.value, Holds())
    {
      hide FactsWritten, RulesWritten, ChecksWritten, PoliciesWritten, VarsInPredicates, VarsInRules, VarsInChecks,
           VarsInPolicies;
      hide NoDup, FactsStand, RulesStand, ChecksStand, PoliciesStand, EncodableRules, EncodablePredicates,
           EncodableChecks, EncodablePolicies;
      ghost var names := VarsInContents(Holds());
      NothingTwice();
      var table := new SymbolTable([]);
      var pFacts := SaveFacts(facts, table);
      used := table.entries;
      if pFacts.None? {
        return None, used;
      }
      ghost var t1 := used;
      var pRules := SaveRules(rules, table);
      used := table.entries;
      if pRules.None? {
        return None, used;
      }
      ghost var t2 := used;
      var pChecks := SaveChecks(checks, table);
      used := table.entries;
      if pChecks.None? {
        return None, used;
      }
      ghost var t3 := used;
      var pPolicies := SavePolicies(policies, table);
      used := table.entries;
      if pPolicies.None? {
        return None, used;
      }
      FitBefore(t1, table.entries, names, VarsInPredicates(facts));
      FitBefore(t2, table.entries, names, VarsInRules(rules));
      FitBefore(t3, table.entries, names, VarsInChecks(checks));
      FitBefore(t3, table.entries, names, VarsInPolicies(policies));
      if NamesFit(table.entries, names) {
        FactsStandLater(t1, table.entries, pFacts.value, facts);
        RulesStandLater(t2, table.entries, pRules.value, rules);
        ChecksStandLater(t3, table.entries, pChecks.value, checks);
      }
      r := Some(PPolicies(table.entries, MAX_SCHEMA, pFacts.value, pRules.value, pChecks.value, pPolicies.value));
    }

    /** What is loaded before an error stays loaded. */
    method LoadPolicies(m: PPolicies) returns (ok: bool)
      modifies this`facts, this`rules, this`checks, this`policies
      ensures ok <==> Loaded(m).Some?
      ensures Holds() == Joined(old(Holds()), PartlyLoaded(m))
      ensures ok ==> Holds() == Joined(old(Holds()), Loaded(m).value)
    {
      hide FactLoader, RuleLoader, CheckLoader, PolicyLoader, MapAll, LoadedPrefix;
      if !(MIN_SCHEMA <= m.version <= MAX_SCHEMA) {
        return false;
      }
      var moreFacts;
      ok, moreFacts := LoadEach(FactLoader(m.symbols), m.facts);
      facts := facts + moreFacts;
      if !ok {
        return;
      }
      var moreRules;
      ok, moreRules := LoadEach(RuleLoader(m.symbols), m.rules);
      rules := rules + moreRules;
      if !ok {
        return;
      }
      var moreChecks;
      ok, moreChecks := LoadEach(CheckLoader(m.symbols), m.checks);
      checks := checks + moreChecks;
      if !ok {
        return;
      }
      var morePolicies;
      ok, morePolicies := LoadEach(PolicyLoader(m.symbols), m.policies);
      policies := policies + morePolicies;
    }
  }

  function Joined(c: Contents, d: Contents): Contents {
    Contents(c.facts + d.facts, c.rules + d.rules, c.checks + d.checks, c.policies + d.policies)
  }

  /** The elements up to the first that fails. */
  function LoadedPrefix<A, B>(f: A -> Option<B>, xs: seq<A>): seq<B>
    decreases |xs|
  {
    if xs == [] || f(xs[0]).None? then [] else [f(xs[0]).value] + LoadedPrefix(f, xs[1..])
  }

  /** What is left loaded of a message, whether or not all of it loads: the parts come in order, and
      nothing comes after the first element that fails. */
  function PartlyLoaded(m: PPolicies): Contents {
    if !(MIN_SCHEMA <= m.version <= MAX_SCHEMA) then Contents([], [], [], [])
    else
      var facts := LoadedPrefix(FactLoader(m.symbols), m.facts);
      if |facts| < |m.facts| then Contents(facts, [], [], [])
      else
        var rules := LoadedPrefix(RuleLoader(m.symbols), m.rules);
        if |rules| < |m.rules| then Contents(facts, rules, [], [])
        else
          var checks := LoadedPrefix(CheckLoader(m.symbols), m.checks);
          if |checks| < |m.checks| then Contents(facts, rules, checks, [])
          else Contents(facts, rules, checks, LoadedPrefix(PolicyLoader(m.symbols), m.policies))
  }

  /** One loop of loadPoliciesV2: loads up to the first that fails. */
  method LoadEach<A, B>(f: A -> Option<B>, xs: seq<A>) returns (ok: bool, ys: seq<B>)
    ensures ys == LoadedPrefix(f, xs)
    ensures |ys| <= |xs| && MapAll(f, xs[..|ys|]) == Some(ys)
    ensures ok <==> MapAll(f, xs) == Some(ys)
    ensures !ok ==> MapAll(f, xs).None? && |ys| < |xs| && f(xs[|ys|]).None?
  {
    ys := [];
    for i := 0 to |xs|
      invariant |ys| == i && MapAll(f, xs[..i]) == Some(ys)
      invariant LoadedPrefix(f, xs) == ys + LoadedPrefix(f, xs[i..])
    {
      assert xs[..i + 1][..i] == xs[..i];
      var y := f(xs[i]);
      if y.None? {
        MapStaysNone(f, xs, i + 1);
        return false, ys;
      }
      ys := ys + [y.value];
    }
    assert xs[..|xs|] == xs;
    ok := true;
  }

  lemma {:induction false} MapStaysNone<A, B>(f: A -> Option<B>, xs: seq<A>, n: nat)
    requires n <= |xs| && MapAll(f, xs[..n]).None?
    ensures MapAll(f, xs).None?
    decreases |xs| - n
  {
    if n < |xs| {
      assert xs[..n + 1][..n] == xs[..n];
      MapStaysNone(f, xs, n + 1);
    } else {
      assert xs[..n] == xs;
    }
  }

  // ---- Loading what was saved ----

  lemma {:induction false} MapsTo<A, B>(f: A -> Option<B>, xs: seq<A>, ys: seq<B>)
    requires |xs| == |ys| && forall i :: 0 <= i < |xs| ==> f(xs[i]) == Some(ys[i])
    ensures MapAll(f, xs) == Some(ys)
    decreases |xs|
  {
    if xs != [] {
      var n := |xs| - 1;
      MapsTo(f, xs[..n], ys[..n]);
      assert ys == ys[..n] + [ys[n]];
    }
  }

  lemma MapsNot<A, B>(f: A -> Option<B>, xs: seq<A>, i: nat)
    requires i < |xs| && f(xs[i]).None?
    ensures MapAll(f, xs).None?
  {
    assert xs[..i + 1][..i] == xs[..i];
    MapStaysNone(f, xs, i + 1);
  }

  predicate AnyKeyScoped(rs: seq<SRule>) { exists i :: 0 <= i < |rs| && KeyScoped(rs[i].scopes) }

  /** Some rule or query trusts a public key. */
  predicate TrustsKey(c: Contents) {
    || AnyKeyScoped(c.rules)
    || (exists i :: 0 <= i < |c.checks| && AnyKeyScoped(c.checks[i].queries))
    || (exists i :: 0 <= i < |c.policies| && AnyKeyScoped(c.policies[i].queries))
  }

  lemma RulesLoad(t: Table, ps: seq<PRule>, rs: seq<SRule>)
    requires RulesStand(t, ps, rs)
    ensures MapAll(RuleLoader(t), ps) == if AnyKeyScoped(rs) then None else Some(rs)
  {
    hide DecodeRule, DefinedRule, KeyScoped, MapAll;
    forall i | 0 <= i < |ps|
      ensures RuleLoader(t)(ps[i]) == if KeyScoped(rs[i].scopes) then None else Some(rs[i])
    {
      assert RuleStands(t, ps[i], rs[i]);
    }
    if AnyKeyScoped(rs) {
      var i :| 0 <= i < |rs| && KeyScoped(rs[i].scopes);
      MapsNot(RuleLoader(t), ps, i);
    } else {
      MapsTo(RuleLoader(t), ps, rs);
    }
  }

  lemma CheckLoads(t: Table, p: PCheck, c: SCheck)
    requires CheckStands(t, p, c)
    ensures LoadCheck(t, p) == if AnyKeyScoped(c.queries) then None else Some(c)
  {
    hide DecodeCheck, DefinedRules, KeyScoped;
    var d := DecodeCheck(p).value;
    forall i | 0 <= i < |d.queries|
      ensures c.queries[i].scopes == d.queries[i].scopes
    {
      assert c.queries[i] == ResolveRule(t, d.queries[i]);
    }
    hide ResolveRule;
  }

  lemma ChecksLoad(t: Table, ps: seq<PCheck>, cs: seq<SCheck>)
    requires ChecksStand(t, ps, cs)
    ensures MapAll(CheckLoader(t), ps)
            == if exists i :: 0 <= i < |cs| && AnyKeyScoped(cs[i].queries) then None else Some(cs)
  {
    hide MapAll, AnyKeyScoped, CheckStands;
    forall i | 0 <= i < |ps|
      ensures CheckLoader(t)(ps[i]) == if AnyKeyScoped(cs[i].queries) then None else Some(cs[i])
    {
      CheckLoads(t, ps[i], cs[i]);
    }
    if i :| 0 <= i < |cs| && AnyKeyScoped(cs[i].queries) {
      MapsNot(CheckLoader(t), ps, i);
    } else {
      MapsTo(CheckLoader(t), ps, cs);
    }
  }

  lemma PoliciesLoad(t: Table, ps: seq<PPolicy>, qs: seq<Policy>)
    requires PoliciesStand(t, ps, qs)
    ensures MapAll(PolicyLoader(t), ps)
            == if exists i :: 0 <= i < |qs| && AnyKeyScoped(qs[i].queries) then None else Some(qs)
  {
    hide RulesStand, MapAll, AnyKeyScoped;
    forall i | 0 <= i < |ps|
      ensures PolicyLoader(t)(ps[i]) == if AnyKeyScoped(qs[i].queries) then None else Some(qs[i])
    {
      assert PolicyStands(t, ps[i], qs[i]);
      RulesLoad(t, ps[i].queries, qs[i].queries);
    }
    if i :| 0 <= i < |qs| && AnyKeyScoped(qs[i].queries) {
      MapsNot(PolicyLoader(t), ps, i);
    } else {
      MapsTo(PolicyLoader(t), ps, qs);
    }
  }

  /** What is saved loads exactly when no rule and no query trusts a public key, and then as it was:
      the message carries no keys. */
  lemma SavedLoads(m: PPolicies, c: Contents)
    requires Saved(m, c)
    ensures Loaded(m) == if TrustsKey(c) then None else Some(c)
  {
    hide FactStands, RulesStand, ChecksStand, PoliciesStand, AnyKeyScoped, MapAll, RuleLoader, CheckLoader,
         PolicyLoader;
    forall i | 0 <= i < |m.facts|
      ensures FactLoader(m.symbols)(m.facts[i]) == Some(c.facts[i])
    {
      FactLoads(m.symbols, m.facts[i], c.facts[i]);
    }
    MapsTo(FactLoader(m.symbols), m.facts, c.facts);
    RulesLoad(m.symbols, m.rules, c.rules);
    ChecksLoad(m.symbols, m.checks, c.checks);
    PoliciesLoad(m.symbols, m.policies, c.policies);
  }

  lemma FactLoads(t: Table, p: PPredicate, f: SFact)
    requires FactStands(t, p, f)
    ensures LoadFact(t, p) == Some(f)
  {
  }

  // ---- What loading says of the names ----

  lemma {:induction false} MapsEach<A, B>(f: A -> Option<B>, xs: seq<A>)
    ensures MapAll(f, xs).Some? <==> forall i :: 0 <= i < |xs| ==> f(xs[i]).Some?
    ensures MapAll(f, xs).Some? ==> forall i :: 0 <= i < |xs| ==> f(xs[i]) == Some(MapAll(f, xs).value[i])
    decreases |xs|
  {
    if xs != [] {
      MapsEach(f, xs[..|xs| - 1]);
    }
  }

  lemma WrittenRuleLoads(t: Table, p: PRule, r: SRule)
    requires RuleWritten(p, r)
    ensures LoadRule(t, p).Some? <==> !KeyScoped(r.scopes)
    ensures NoDup(t) && LoadRule(t, p) == Some(r) && PlainNames(VarsInRule(r)) ==> NamesFit(t, VarsInRule(r))
  {
    var q := DecodeRule(p).value;
    hide DecodeRule, NoDup, VarsInRule, ResolveRule, DefinedRule, PlainNames, KeyScoped;
    RuleNames(t, q);
    if NoDup(t) && ResolveRule(t, q) == r && PlainNames(VarsInRule(r)) {
      SmallFits(t, VarsInRule(r), VarsInRule(q));
    }
  }

  lemma WrittenRulesLoad(t: Table, ps: seq<PRule>, rs: seq<SRule>)
    requires RulesWritten(ps, rs)
    ensures MapAll(RuleLoader(t), ps).Some? <==> !AnyKeyScoped(rs)
    ensures NoDup(t) && MapAll(RuleLoader(t), ps) == Some(rs) && PlainNames(VarsInRules(rs)) ==>
              NamesFit(t, VarsInRules(rs))
  {
    hide RuleWritten, NoDup, VarsInRule, MapAll, LoadRule, KeyScoped;
    MapsEach(RuleLoader(t), ps);
    forall i | 0 <= i < |ps|
      ensures RuleLoader(t)(ps[i]).Some? <==> !KeyScoped(rs[i].scopes)
      ensures VarsInRule(rs[i]) <= VarsInRules(rs)
      ensures NoDup(t) && RuleLoader(t)(ps[i]) == Some(rs[i]) && PlainNames(VarsInRules(rs)) ==>
                NamesFit(t, VarsInRule(rs[i]))
    {
      assert rs[i] in rs;
      WrittenRuleLoads(t, ps[i], rs[i]);
    }
  }

  lemma WrittenCheckLoads(t: Table, p: PCheck, c: SCheck)
    requires CheckWritten(p, c)
    ensures LoadCheck(t, p).Some? <==> !AnyKeyScoped(c.queries)
    ensures NoDup(t) && LoadCheck(t, p) == Some(c) && PlainNames(VarsInRules(c.queries)) ==>
              NamesFit(t, VarsInRules(c.queries))
  {
    var d := DecodeCheck(p).value;
    hide DecodeCheck, NoDup, VarsInRules, ResolveRules, DefinedRules, PlainNames, KeyScoped;
    RulesNames(t, d.queries);
    if NoDup(t) && ResolveRules(t, d.queries) == c.queries && PlainNames(VarsInRules(c.queries)) {
      SmallFits(t, VarsInRules(c.queries), VarsInRules(d.queries));
    }
  }

  lemma WrittenChecksLoad(t: Table, ps: seq<PCheck>, cs: seq<SCheck>)
    requires ChecksWritten(ps, cs)
    ensures MapAll(CheckLoader(t), ps).Some? <==> forall i :: 0 <= i < |cs| ==> !AnyKeyScoped(cs[i].queries)
    ensures NoDup(t) && MapAll(CheckLoader(t), ps) == Some(cs) && PlainNames(VarsInChecks(cs)) ==>
              NamesFit(t, VarsInChecks(cs))
  {
    hide CheckWritten, NoDup, VarsInRules, MapAll, LoadCheck, AnyKeyScoped;
    MapsEach(CheckLoader(t), ps);
    forall i | 0 <= i < |ps|
      ensures CheckLoader(t)(ps[i]).Some? <==> !AnyKeyScoped(cs[i].queries)
      ensures VarsInRules(cs[i].queries) <= VarsInChecks(cs)
      ensures NoDup(t) && CheckLoader(t)(ps[i]) == Some(cs[i]) && PlainNames(VarsInChecks(cs)) ==>
                NamesFit(t, VarsInRules(cs[i].queries))
    {
      assert cs[i] in cs;
      WrittenCheckLoads(t, ps[i], cs[i]);
    }
  }

  lemma WrittenPoliciesLoad(t: Table, ps: seq<PPolicy>, qs: seq<Policy>)
    requires PoliciesWritten(ps, qs)
    ensures MapAll(PolicyLoader(t), ps).Some? <==> forall i :: 0 <= i < |qs| ==> !AnyKeyScoped(qs[i].queries)
    ensures NoDup(t) && MapAll(PolicyLoader(t), ps) == Some(qs) && PlainNames(VarsInPolicies(qs)) ==>
              NamesFit(t, VarsInPolicies(qs))
  {
    hide RulesWritten, NoDup, VarsInRules, MapAll, RuleLoader, AnyKeyScoped;
    MapsEach(PolicyLoader(t), ps);
    forall i | 0 <= i < |ps|
      ensures PolicyLoader(t)(ps[i]).Some? <==> !AnyKeyScoped(qs[i].queries)
      ensures VarsInRules(qs[i].queries) <= VarsInPolicies(qs)
      ensures NoDup(t) && PolicyLoader(t)(ps[i]) == Some(qs[i]) && PlainNames(VarsInPolicies(qs)) ==>
                NamesFit(t, VarsInRules(qs[i].queries))
    {
      assert qs[i] in qs;
      WrittenRulesLoad(t, ps[i].queries, qs[i].queries);
    }
  }

  lemma WrittenFactsLoad(t: Table, ps: seq<PPredicate>, fs: seq<SFact>)
    requires FactsWritten(ps, |fs|)
    ensures MapAll(FactLoader(t), ps).Some?
    ensures NoDup(t) && MapAll(FactLoader(t), ps) == Some(fs) && PlainNames(VarsInPredicates(fs)) ==>
              NamesFit(t, VarsInPredicates(fs))
  {
    hide NoDup, VarsInTerms, MapAll, DecodePredicate, ResolveTerms, StrOf;
    MapsEach(FactLoader(t), ps);
    forall i | 0 <= i < |ps|
      ensures FactLoader(t)(ps[i]).Some? && VarsInTerms(fs[i].terms) <= VarsInPredicates(fs)
      ensures NoDup(t) && FactLoader(t)(ps[i]) == Some(fs[i]) && PlainNames(VarsInPredicates(fs)) ==>
                NamesFit(t, VarsInTerms(fs[i].terms))
    {
      assert fs[i] in fs && FactWritten(ps[i]);
      assert VarsInTerms(fs[i].terms) <= VarsInPredicates(fs);
      var d := DecodePredicate(ps[i]).value;
      TermsNames(t, d.terms);
      if NoDup(t) && ResolvePredicate(t, d) == fs[i] && PlainNames(VarsInPredicates(fs)) {
        SmallFits(t, VarsInTerms(fs[i].terms), VarsInTerms(d.terms));
      }
    }
  }

  /** What is written loads exactly when no rule and no query trusts a public key, and if it comes back as it was,
      and no variable is named like an undefined symbol, then no variable was cut off. */
  lemma WrittenLoads(m: PPolicies, c: Contents)
    requires IsWritten(m, c)
    ensures Loaded(m).Some? <==> !TrustsKey(c)
    ensures Loaded(m) == Some(c) && PlainNames(VarsInContents(c)) ==> NamesFit(m.symbols, VarsInContents(c))
  {
    hide FactsWritten, RulesWritten, ChecksWritten, PoliciesWritten, AnyKeyScoped, MapAll, RuleLoader, FactLoader,
         CheckLoader, PolicyLoader, NoDup, VarsInPredicates, VarsInRules, VarsInChecks, VarsInPolicies;
    WrittenFactsLoad(m.symbols, m.facts, c.facts);
    WrittenRulesLoad(m.symbols, m.rules, c.rules);
    WrittenChecksLoad(m.symbols, m.checks, c.checks);
    WrittenPoliciesLoad(m.symbols, m.policies, c.policies);
  }

  /** Saving an authorizer and loading the message into an empty one restores it, unless it trusts a public
      key or a variable is cut off. The scopes of the authorizer itself are not restored. */
  method SaveAndLoad(from: Builder) returns (to: Builder, saved: bool, loaded: bool, used: Table)
    ensures saved <==> Encodable(from.Holds())
    ensures loaded <==> saved && !TrustsKey(from.Holds())
    ensures loaded && NamesFit(used, VarsInContents(from.Holds())) ==> to.Holds() == from.Holds()
    ensures loaded && to.Holds() == from.Holds() && PlainNames(VarsInContents(from.Holds())) ==>
              NamesFit(used, VarsInContents(from.Holds()))
    ensures to.scopes == []
  {
    hide Encodable, Saved, Loaded, TrustsKey, IsWritten, VarsInContents, NamesFit, PlainNames;
    to := new Builder();
    var m;
    m, used := from.SerializePolicies();
    saved, loaded := m.Some?, false;
    if saved {
      loaded := to.LoadPolicies(m.value);
      WrittenLoads(m.value, from.Holds());
      if NamesFit(used, VarsInContents(from.Holds())) {
        SavedLoads(m.value, from.Holds());
      }
      if loaded {
        NothingBefore(Loaded(m.value).value);
      }
    }
  }

  lemma NothingBefore(c: Contents)
    ensures Joined(Contents([], [], [], []), c) == c
  {
  }

  // ---- Which messages load ----

  /** A message loads exactly when its version is one of 3 to 6 and every part can be read and trusts no key; then each
      element stands for what it says in the symbols of the message, and policies keep their kind. */
  lemma LoadsIff(m: PPolicies)
    ensures Loaded(m).Some? <==>
              && 3 <= m.version <= 6
              && (forall i :: 0 <= i < |m.facts| ==> DecodePredicate(m.facts[i]).Some?)
              && (forall i :: 0 <= i < |m.rules| ==> Readable(m.rules[i]))
              && (forall i :: 0 <= i < |m.checks| ==> LoadCheck(m.symbols, m.checks[i]).Some?)
              && (forall i, j :: 0 <= i < |m.policies| && 0 <= j < |m.policies[i].queries| ==>
                    Readable(m.policies[i].queries[j]))
    ensures Loaded(m).Some? ==>
              var c := Loaded(m).value;
              && |c.facts| == |m.facts| && |c.rules| == |m.rules| && |c.policies| == |m.policies|
              && (forall i :: 0 <= i < |m.facts| ==>
                    Some(c.facts[i]) == LoadFact(m.symbols, m.facts[i]))
              && (forall i :: 0 <= i < |m.rules| ==>
                    c.rules[i] == ResolveRule(m.symbols, DecodeRule(m.rules[i]).value))
              && (forall i :: 0 <= i < |m.policies| ==>
                    (c.policies[i].kind == Allow <==> m.policies[i].allow))
  {
    hide MapAll, LoadCheck, DecodeRule, DecodePredicate, ResolveRule, ResolvePredicate, Readable, LoadPolicy;
    var t := m.symbols;
    MapsEach(FactLoader(t), m.facts);
    RulesRead(t, m.rules);
    MapsEach(CheckLoader(t), m.checks);
    PoliciesRead(t, m.policies);
  }

  lemma RulesRead(t: Table, ps: seq<PRule>)
    ensures MapAll(RuleLoader(t), ps).Some? <==> forall i :: 0 <= i < |ps| ==> Readable(ps[i])
    ensures MapAll(RuleLoader(t), ps).Some? ==>
              forall i :: 0 <= i < |ps| ==>
                MapAll(RuleLoader(t), ps).value[i] == ResolveRule(t, DecodeRule(ps[i]).value)
  {
    hide MapAll, DecodeRule, ResolveRule;
    MapsEach(RuleLoader(t), ps);
    forall i | 0 <= i < |ps|
      ensures RuleLoader(t)(ps[i]).Some? <==> Readable(ps[i])
      ensures Readable(ps[i]) ==> RuleLoader(t)(ps[i]) == Some(ResolveRule(t, DecodeRule(ps[i]).value))
    {
    }
    hide Readable, LoadRule;
  }

  lemma PoliciesRead(t: Table, ps: seq<PPolicy>)
    ensures MapAll(PolicyLoader(t), ps).Some? <==>
              forall i, j :: 0 <= i < |ps| && 0 <= j < |ps[i].queries| ==> Readable(ps[i].queries[j])
    ensures MapAll(PolicyLoader(t), ps).Some? ==>
              forall i :: 0 <= i < |ps| ==> (MapAll(PolicyLoader(t), ps).value[i].kind == Allow <==> ps[i].allow)
  {
    hide MapAll, Readable, RuleLoader;
    MapsEach(PolicyLoader(t), ps);
    forall i | 0 <= i < |ps|
      ensures PolicyLoader(t)(ps[i]).Some? <==> forall j :: 0 <= j < |ps[i].queries| ==> Readable(ps[i].queries[j])
      ensures PolicyLoader(t)(ps[i]).Some? ==> (PolicyLoader(t)(ps[i]).value.kind == Allow <==> ps[i].allow)
    {
      RulesRead(t, ps[i].queries);
    }
    hide LoadPolicy;
  }

  /** The rule can be read, and no scope of it names a key. */
  predicate Readable(p: PRule) {
    DecodeRule(p).Some? && forall s :: s in DecodeRule(p).value.scopes ==> !s.PublicKeyScope?
  }
}
