/** Symbol tables (datalog/symbol.go), and the windows of them that the blocks of a
    token carry (builder.go, biscuit.go). */
module Symbols {
  import opened Wrappers
  import opened Digits

  type Table = seq<string>

  function DefaultSymbols(): (r: Table)
    ensures |r| == 28
  {
    ["read", "write", "resource", "operation", "right", "time", "role", "owner", "tenant",
     "namespace", "user", "team", "service", "admin", "email", "group", "member", "ip_address",
     "client", "client_ip", "domain", "path", "version", "cluster", "node", "hostname", "nonce", "query"]
  }

  /** Ids below the offset are those of the default symbols. */
  const OFFSET: nat := 1024

  /** The first position of a string. */
  function Position(xs: Table, s: string): (r: Option<nat>)
    ensures r.None? <==> s !in xs
    ensures r.Some? ==> r.value < |xs| && xs[r.value] == s && forall k :: 0 <= k < r.value ==> xs[k] != s
  {
    if xs == [] then None
    else if xs[0] == s then Some(0)
    else match Position(xs[1..], s) case None => None case Some(i) => Some(i + 1)
  }

  /** The id of a string, if it has one. */
  function Sym(t: Table, s: string): Option<nat> {
    match Position(DefaultSymbols(), s)
    case Some(i) => Some(i)
    case None => match Position(t, s) case None => None case Some(i) => Some(OFFSET + i)
  }

  predicate Known(t: Table, s: string) { s in DefaultSymbols() || s in t }

  predicate Defined(t: Table, id: nat) {
    if id < OFFSET then id < |DefaultSymbols()| else id - OFFSET < |t|
  }

  function StrOf(t: Table, id: nat): string {
    if !Defined(t, id) then "<invalid symbol " + FormatUint(id, 10) + ">"
    else if id < OFFSET then DefaultSymbols()[id]
    else t[id - OFFSET]
  }

  /** The table once a string is in it. */
  function Interned(t: Table, s: string): Table { if Known(t, s) then t else t + [s] }

  function InternAll(t: Table, ss: seq<string>): Table
    decreases |ss|
  {
    if ss == [] then t else InternAll(Interned(t, ss[0]), ss[1..])
  }

  predicate Disjoint(t: Table, other: Table) { forall s :: s in t ==> s !in other }

  /** No string has two ids. */
  ghost predicate NoDup(t: Table) {
    && (forall i, j :: 0 <= i < j < |t| ==> t[i] != t[j])
    && (forall s :: s in t ==> s !in DefaultSymbols())
  }

  class SymbolTable {
    var entries: Table

    constructor (entries: Table)
      ensures this.entries == entries
    {
      this.entries := entries;
    }

    method Insert(s: string) returns (id: nat)
      modifies this
      ensures entries == Interned(old(entries), s)
      ensures Sym(entries, s) == Some(id) && Defined(entries, id) && StrOf(entries, id) == s
    {
      hide DefaultSymbols;
      for i := 0 to |DefaultSymbols()|
        invariant forall k :: 0 <= k < i ==> DefaultSymbols()[k] != s
      {
        if DefaultSymbols()[i] == s {
          FirstPosition(DefaultSymbols(), s, i);
          return i;
        }
      }
      for i := 0 to |entries|
        invariant entries == old(entries) && forall k :: 0 <= k < i ==> entries[k] != s
      {
        if entries[i] == s {
          FirstPosition(entries, s, i);
          return OFFSET + i;
        }
      }
      entries := entries + [s];
      id := OFFSET + |entries| - 1;
      FirstPosition(entries, s, |entries| - 1);
    }

    method Extend(other: Table)
      modifies this
      ensures entries == InternAll(old(entries), other)
    {
      hide DefaultSymbols, Sym, Interned, StrOf, Defined;
      for i := 0 to |other|
        invariant InternAll(entries, other[i..]) == InternAll(old(entries), other)
      {
        var _ := Insert(other[i]);
      }
    }

    /** Leaves the first entries, and returns the rest. */
    method SplitOff(at: nat) returns (rest: Table)
      requires at <= |entries|
      modifies this
      ensures entries + rest == old(entries) && |entries| == at
    {
      rest := entries[at..];
      entries := entries[..at];
    }
  }

  method IsDisjoint(t: Table, other: Table) returns (r: bool)
    ensures r <==> Disjoint(t, other)
  {
    var m: set<string> := {};
    for i := 0 to |t|
      invariant m == set s | s in t[..i]
    {
      assert t[..i + 1] == t[..i] + [t[i]];
      m := m + {t[i]};
    }
    assert t[..|t|] == t;
    for i := 0 to |other|
      invariant forall s :: s in other[..i] ==> s !in t
    {
      if other[i] in m {
        return false;
      }
    }
    r := true;
  }

  // ---- Interning ----

  lemma FirstPosition(xs: Table, s: string, i: nat)
    requires i < |xs| && xs[i] == s && forall k :: 0 <= k < i ==> xs[k] != s
    ensures Position(xs, s) == Some(i)
  {
    var p := Position(xs, s).value;
    assert p <= i && i <= p;
  }

  /** An id stands for the string it was issued for, and for no other. */
  lemma SymStr(t: Table, s: string)
    ensures Sym(t, s).Some? <==> Known(t, s)
    ensures Sym(t, s).Some? ==> Defined(t, Sym(t, s).value) && StrOf(t, Sym(t, s).value) == s
  {
    hide DefaultSymbols;
  }

  /** In a table without duplicates, resolving an id and interning the result gives it back. */
  lemma StrSym(t: Table, id: nat)
    requires NoDup(t) && Defined(t, id)
    ensures Sym(t, StrOf(t, id)) == Some(id)
  {
    if id < OFFSET {
      DefaultsAreDistinct();
      FirstPosition(DefaultSymbols(), StrOf(t, id), id);
    } else {
      FirstPosition(t, StrOf(t, id), id - OFFSET);
    }
  }

  lemma DefaultsAreDistinct()
    ensures forall i, j :: 0 <= i < j < |DefaultSymbols()| ==> DefaultSymbols()[i] != DefaultSymbols()[j]
  {
  }

  /** A table only ever grows, so what is defined keeps its meaning. */
  lemma GrowthKeepsMeaning(t: Table, more: Table, id: nat)
    requires Defined(t, id)
    ensures Defined(t + more, id) && StrOf(t + more, id) == StrOf(t, id)
  {
    hide DefaultSymbols;
  }

  lemma InternKeepsNoDup(t: Table, s: string)
    requires NoDup(t)
    ensures NoDup(Interned(t, s))
  {
    hide DefaultSymbols;
  }

  lemma {:induction false} InternAllGrows(t: Table, ss: seq<string>)
    ensures t <= InternAll(t, ss)
    ensures forall s :: Known(InternAll(t, ss), s) <==> Known(t, s) || s in ss
    ensures NoDup(t) ==> NoDup(InternAll(t, ss))
    decreases |ss|
  {
    hide DefaultSymbols;
    if ss != [] {
      var t' := Interned(t, ss[0]);
      InternAllGrows(t', ss[1..]);
      if NoDup(t) {
        InternKeepsNoDup(t, ss[0]);
      }
      forall s
        ensures Known(InternAll(t, ss), s) <==> Known(t, s) || s in ss
      {
        assert s in ss <==> s == ss[0] || s in ss[1..];
      }
    }
  }
}
