/** Matching and unification of rule bodies with facts (datalog/datalog.go,
    datalog/evaluator.go). */
module Matching {
  import opened Wrappers
  import opened Types

  /** Predicate.Match: variables on either side match anything. */
  predicate Match<S>(p: Predicate<S>, q: Predicate<S>) {
    && p.name == q.name
    && |p.terms| == |q.terms|
    && forall i :: 0 <= i < |p.terms| ==>
         p.terms[i].Variable? || q.terms[i].Variable? || p.terms[i] == q.terms[i]
  }

  function TermVariables<S>(ts: seq<Term<S>>): set<S> {
    set t | t in ts && t.Variable? :: t.v
  }

  /** The variables of a list of predicates. */
  function Variables<S>(preds: seq<Predicate<S>>): set<S> {
    set p, v | p in preds && v in TermVariables(p.terms) :: v
  }

  /** matchedVariables.insert: binds a variable, or checks the term it is bound to. */
  function BindTerm<S>(m: Bindings<S>, pt: Term<S>, ft: Term<S>): Option<Bindings<S>> {
    if !pt.Variable? then Some(m)
    else if pt.v !in m then Some(m[pt.v := ft])
    else if m[pt.v] == ft then Some(m)
    else None
  }

  /** Binds the first n terms of a predicate to those of a fact. */
  function BindTerms<S>(m: Bindings<S>, pts: seq<Term<S>>, fts: seq<Term<S>>, n: nat): Option<Bindings<S>>
    requires n <= |pts| <= |fts|
  {
    if n == 0 then Some(m)
    else
      match BindTerms(m, pts, fts, n - 1)
      case None => None
      case Some(m') => BindTerm(m', pts[n - 1], fts[n - 1])
  }

  /** Binds the variables of the first n predicates to the terms of the facts beside them. */
  function BindFirst<S>(preds: seq<Predicate<S>>, facts: seq<Fact<S>>, n: nat): Option<Bindings<S>>
    requires n <= |preds| == |facts|
    requires forall i :: 0 <= i < n ==> |preds[i].terms| == |facts[i].terms|
  {
    if n == 0 then Some(map[])
    else
      match BindFirst(preds, facts, n - 1)
      case None => None
      case Some(m) => BindTerms(m, preds[n - 1].terms, facts[n - 1].terms, |preds[n - 1].terms|)
  }

  predicate AllMatch<S>(preds: seq<Predicate<S>>, facts: seq<Fact<S>>)
    requires |preds| == |facts|
  {
    forall i :: 0 <= i < |preds| ==> Match(facts[i], preds[i])
  }

  /** The bindings under which a body matches a tuple of facts, if any. */
  function Unify<S>(preds: seq<Predicate<S>>, facts: seq<Fact<S>>): Option<Bindings<S>>
    requires |preds| == |facts|
  {
    if AllMatch(preds, facts) then BindFirst(preds, facts, |preds|) else None
  }

  /** What it means for bindings to unify a body with a tuple of facts: exactly the
      body's variables are bound, each to the term at every position it occurs at. */
  ghost predicate Unifies<S>(preds: seq<Predicate<S>>, facts: seq<Fact<S>>, m: Bindings<S>)
    requires |preds| == |facts|
  {
    && AllMatch(preds, facts)
    && m.Keys == Variables(preds)
    && forall p, i :: 0 <= p < |preds| && 0 <= i < |preds[p].terms| && preds[p].terms[i].Variable? ==>
         preds[p].terms[i].v in m && m[preds[p].terms[i].v] == facts[p].terms[i]
  }

  // ---- Unify computes exactly Unifies ----

  /** The first n terms agree with the bindings. */
  ghost predicate TermsAgree<S>(m: Bindings<S>, pts: seq<Term<S>>, fts: seq<Term<S>>, n: nat)
    requires n <= |pts| <= |fts|
  {
    forall i :: 0 <= i < n && pts[i].Variable? ==> pts[i].v in m && m[pts[i].v] == fts[i]
  }

  /** m' keeps everything m binds. */
  ghost predicate Extends<S>(m': Bindings<S>, m: Bindings<S>) {
    forall v :: v in m ==> v in m' && m'[v] == m[v]
  }

  lemma {:induction false} BindTermsSound<S>(m: Bindings<S>, pts: seq<Term<S>>, fts: seq<Term<S>>, n: nat)
    requires n <= |pts| <= |fts|
    requires BindTerms(m, pts, fts, n).Some?
    ensures var m' := BindTerms(m, pts, fts, n).value;
            && Extends(m', m) && TermsAgree(m', pts, fts, n)
            && m'.Keys == m.Keys + TermVariables(pts[..n])
  {
    if n > 0 {
      BindTermsSound(m, pts, fts, n - 1);
      assert pts[..n] == pts[..n - 1] + [pts[n - 1]];
    }
  }

  lemma {:induction false} BindTermsComplete<S>(m: Bindings<S>, pts: seq<Term<S>>, fts: seq<Term<S>>, n: nat,
                                                w: Bindings<S>)
    requires n <= |pts| <= |fts|
    requires Extends(w, m) && TermsAgree(w, pts, fts, n)
    ensures BindTerms(m, pts, fts, n).Some? && Extends(w, BindTerms(m, pts, fts, n).value)
  {
    if n > 0 {
      BindTermsComplete(m, pts, fts, n - 1, w);
    }
  }

  lemma VariablesSnoc<S>(preds: seq<Predicate<S>>, n: nat)
    requires 0 < n <= |preds|
    ensures Variables(preds[..n]) == Variables(preds[..n - 1]) + TermVariables(preds[n - 1].terms)
  {
    assert preds[..n] == preds[..n - 1] + [preds[n - 1]];
  }

  lemma {:induction false} BindFirstSound<S>(preds: seq<Predicate<S>>, facts: seq<Fact<S>>, n: nat)
    requires n <= |preds| == |facts|
    requires forall i :: 0 <= i < n ==> |preds[i].terms| == |facts[i].terms|
    requires BindFirst(preds, facts, n).Some?
    ensures var m := BindFirst(preds, facts, n).value;
            && m.Keys == Variables(preds[..n])
            && forall p :: 0 <= p < n ==> TermsAgree(m, preds[p].terms, facts[p].terms, |preds[p].terms|)
  {
    if n > 0 {
      BindFirstSound(preds, facts, n - 1);
      var m := BindFirst(preds, facts, n - 1).value;
      var ts := preds[n - 1].terms;
      BindTermsSound(m, ts, facts[n - 1].terms, |ts|);
      assert ts[..|ts|] == ts;
      VariablesSnoc(preds, n);
    }
  }

  lemma {:induction false} BindFirstComplete<S>(preds: seq<Predicate<S>>, facts: seq<Fact<S>>, n: nat, w: Bindings<S>)
    requires n <= |preds| == |facts|
    requires forall i :: 0 <= i < n ==> |preds[i].terms| == |facts[i].terms|
    requires forall p :: 0 <= p < n ==> TermsAgree(w, preds[p].terms, facts[p].terms, |preds[p].terms|)
    ensures BindFirst(preds, facts, n).Some? && Extends(w, BindFirst(preds, facts, n).value)
  {
    if n > 0 {
      BindFirstComplete(preds, facts, n - 1, w);
      var m := BindFirst(preds, facts, n - 1).value;
      BindTermsComplete(m, preds[n - 1].terms, facts[n - 1].terms, |preds[n - 1].terms|, w);
    }
  }

  /** Unification finds bindings exactly when some exist, and they are the only ones. */
  lemma UnifyExact<S>(preds: seq<Predicate<S>>, facts: seq<Fact<S>>, m: Bindings<S>)
    requires |preds| == |facts|
    ensures Unify(preds, facts) == Some(m) <==> Unifies(preds, facts, m)
  {
    if AllMatch(preds, facts) {
      assert preds[..|preds|] == preds;
      if Unify(preds, facts).Some? {
        BindFirstSound(preds, facts, |preds|);
      }
      if Unifies(preds, facts, m) {
        forall p | 0 <= p < |preds|
          ensures TermsAgree(m, preds[p].terms, facts[p].terms, |preds[p].terms|)
        {
        }
        BindFirstComplete(preds, facts, |preds|, m);
        var m' := Unify(preds, facts).value;
        BindFirstSound(preds, facts, |preds|);
        assert m'.Keys == m.Keys;
        assert m' == m;
      }
    }
  }

  // ---- Instantiating a rule head ----

  /** Replaces the variables of the first n terms; None when one is unbound. */
  function SubstTerms<S>(m: Bindings<S>, ts: seq<Term<S>>): Option<seq<Term<S>>> {
    if exists i :: 0 <= i < |ts| && ts[i].Variable? && ts[i].v !in m then None
    else Some(seq(|ts|, i requires 0 <= i < |ts| && (ts[i].Variable? ==> ts[i].v in m) =>
                          if ts[i].Variable? then m[ts[i].v] else ts[i]))
  }

  function Instantiate<S>(m: Bindings<S>, head: Predicate<S>): Option<Fact<S>> {
    match SubstTerms(m, head.terms)
    case None => None
    case Some(ts) => Some(Predicate(head.name, ts))
  }

  /** A ground tuple of facts that unifies with a body is that body instantiated. */
  lemma UnifiedBodyIsInstance<S>(preds: seq<Predicate<S>>, facts: seq<Fact<S>>, m: Bindings<S>, p: nat)
    requires |preds| == |facts| && p < |preds|
    requires Unify(preds, facts) == Some(m)
    requires forall t :: t in facts[p].terms ==> !t.Variable?
    ensures Instantiate(m, preds[p]) == Some(facts[p])
  {
    UnifyExact(preds, facts, m);
    assert Match(facts[p], preds[p]);
    var ts := SubstTerms(m, preds[p].terms);
    assert ts.Some?;
    forall i | 0 <= i < |ts.value|
      ensures ts.value[i] == facts[p].terms[i]
    {
      assert facts[p].terms[i] in facts[p].terms;
    }
    assert ts.value == facts[p].terms;
  }
}
