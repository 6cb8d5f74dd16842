/** The symbol windows of the blocks of a token: the tables blocks are built with, the token's
    table after each append, and the table that reading the token back rebuilds agree on every id. */
module Windows {
  import opened Symbols

  /** A block of a chain: a first-party block by the strings it interns while it is built, in
      order; a third-party block by the symbols it comes with. */
  datatype Link = FirstParty(strings: seq<string>) | ThirdParty(symbols: Table)

  /** The symbols that building a block adds to a table. */
  function Window(t: Table, strings: seq<string>): Table {
    InternAllGrows(t, strings);
    InternAll(t, strings)[|t|..]
  }

  /** The token's table after the blocks: only first-party blocks extend it. */
  function TableAfter(base: Table, links: seq<Link>): Table {
    if links == [] then base
    else
      var t := TableAfter(base, links[..|links| - 1]);
      match links[|links| - 1]
      case FirstParty(strings) => InternAll(t, Window(t, strings))
      case ThirdParty(_) => t
  }

  /** The symbols stored in the last block of a chain. */
  function LastWindow(base: Table, links: seq<Link>): Table
    requires links != []
  {
    match links[|links| - 1]
    case FirstParty(strings) => Window(TableAfter(base, links[..|links| - 1]), strings)
    case ThirdParty(symbols) => symbols
  }

  function StoredWindows(base: Table, links: seq<Link>): (r: seq<Table>)
    ensures |r| == |links|
  {
    if links == [] then []
    else StoredWindows(base, links[..|links| - 1]) + [LastWindow(base, links)]
  }

  /** The table rebuilt from the stored windows: every window extends it. */
  function Rebuilt(base: Table, windows: seq<Table>): Table {
    if windows == [] then base
    else InternAll(Rebuilt(base, windows[..|windows| - 1]), windows[|windows| - 1])
  }

  /** The table the last block of a chain was built with. */
  function BuiltWith(base: Table, links: seq<Link>): Table
    requires links != [] && links[|links| - 1].FirstParty?
  {
    InternAll(TableAfter(base, links[..|links| - 1]), links[|links| - 1].strings)
  }

  // ---- Operations ----

  /** blockBuilder.Build, as far as the table is concerned. */
  method Build(symbols: Table, strings: seq<string>) returns (built: Table, window: Table)
    ensures built == InternAll(symbols, strings) && window == Window(symbols, strings)
    ensures built == symbols + window
  {
    InternAllGrows(symbols, strings);
    hide InternAll;
    var config := new SymbolTable(symbols);
    config.Extend(strings);
    built := config.entries;
    window := config.SplitOff(|symbols|);
  }

  /** The loop of Unmarshal over the blocks of a token: a first-party window extends the table twice. */
  method Rebuild(base: Table, windows: seq<Table>, thirdParty: seq<bool>) returns (symbols: Table)
    requires |windows| == |thirdParty|
    ensures symbols == Rebuilt(base, windows)
  {
    var table := new SymbolTable(base);
    for i := 0 to |windows|
      invariant table.entries == Rebuilt(base, windows[..i])
    {
      ghost var before := table.entries;
      if !thirdParty[i] {
        table.Extend(windows[i]);
      }
      table.Extend(windows[i]);
      ExtendTwice(before, windows[i]);
      assert windows[..i + 1][..i] == windows[..i];
    }
    assert windows[..|windows|] == windows;
    symbols := table.entries;
  }

  // ---- Windows are exactly what a block adds ----

  /** Every string is new to the table and the strings before it. */
  ghost predicate Fresh(t: Table, w: Table) {
    && (forall i :: 0 <= i < |w| ==> !Known(t, w[i]))
    && (forall i, j :: 0 <= i < j < |w| ==> w[i] != w[j])
  }

  lemma {:induction false} WindowIsFresh(t: Table, strings: seq<string>)
    ensures InternAll(t, strings) == t + Window(t, strings) && Fresh(t, Window(t, strings))
    decreases |strings|
  {
    hide DefaultSymbols;
    InternAllGrows(t, strings);
    if strings != [] {
      var t' := Interned(t, strings[0]);
      WindowIsFresh(t', strings[1..]);
      var w, w' := Window(t, strings), Window(t', strings[1..]);
      assert t + w == t' + w';
      if t' == t {
        assert w == w';
      } else {
        assert w == [strings[0]] + w' by {
          Regroup(t, [strings[0]], w', w);
        }
      }
    }
  }

  lemma Regroup(a: Table, b: Table, c: Table, d: Table)
    requires a + b + c == a + d
    ensures d == b + c
  {
    assert d == (a + d)[|a|..];
    assert b + c == (a + b + c)[|a|..];
  }

  lemma {:induction false} FreshIsAppended(t: Table, w: Table)
    requires Fresh(t, w)
    ensures InternAll(t, w) == t + w
    decreases |w|
  {
    hide DefaultSymbols;
    if w != [] {
      var t' := t + [w[0]];
      forall i | 0 <= i < |w[1..]|
        ensures !Known(t', w[1..][i])
      {
        assert w[1..][i] == w[i + 1];
      }
      FreshIsAppended(t', w[1..]);
      assert t + [w[0]] + w[1..] == t + w;
    }
  }

  /** Extending with known symbols changes nothing. */
  lemma {:induction false} KnownAddsNothing(t: Table, w: Table)
    requires forall s :: s in w ==> Known(t, s)
    ensures InternAll(t, w) == t
    decreases |w|
  {
    hide DefaultSymbols;
    if w != [] {
      KnownAddsNothing(t, w[1..]);
    }
  }

  lemma ExtendTwice(t: Table, w: Table)
    ensures InternAll(InternAll(t, w), w) == InternAll(t, w)
  {
    InternAllGrows(t, w);
    KnownAddsNothing(InternAll(t, w), w);
  }

  // ---- All the tables of a chain agree ----

  /** Appending a built block is never refused for an overlap of symbols, and leaves
      the token with exactly the table the block was built with. */
  lemma AppendKeepsBuiltTable(base: Table, links: seq<Link>)
    requires links != [] && links[|links| - 1].FirstParty?
    ensures Disjoint(TableAfter(base, links[..|links| - 1]), LastWindow(base, links))
    ensures TableAfter(base, links) == BuiltWith(base, links)
  {
    var t, strings := TableAfter(base, links[..|links| - 1]), links[|links| - 1].strings;
    WindowIsFresh(t, strings);
    FreshIsAppended(t, Window(t, strings));
  }

  // ---- When the rebuilt table agrees, third-party blocks included ----

  /** The symbols that third-party blocks put into the rebuilt table and that the token's table
      does not hold yet: a third-party block adds its new ones, a first-party window uses them up. */
  function Pending(base: Table, links: seq<Link>): Table {
    if links == [] then []
    else
      var front := links[..|links| - 1];
      var t, pending := TableAfter(base, front), Pending(base, front);
      match links[|links| - 1]
      case FirstParty(strings) =>
        var w := Window(t, strings);
        if w <= pending then pending[|w|..] else []
      case ThirdParty(symbols) => pending + Window(t + pending, symbols)
  }

  /** One of the lists begins with the other. */
  predicate Comparable(a: Table, b: Table) { a <= b || b <= a }

  /** Every first-party window begins with the symbols pending before it, or is the beginning of them. */
  predicate Aligned(base: Table, links: seq<Link>) {
    links == []
    || var front := links[..|links| - 1];
       && Aligned(base, front)
       && (links[|links| - 1].FirstParty? ==>
             Comparable(Window(TableAfter(base, front), links[|links| - 1].strings), Pending(base, front)))
  }

  /** A window that begins with the pending symbols, or is their beginning, keeps the tables in step. */
  lemma WindowInStep(t: Table, pending: Table, w: Table)
    requires Fresh(t, w) && Fresh(t, pending) && Comparable(w, pending)
    ensures InternAll(t + pending, w) == t + w + if w <= pending then pending[|w|..] else []
  {
    hide DefaultSymbols;
    if w <= pending {
      hide InternAll;
      KnownAddsNothing(t + pending, w);
      assert t + pending == t + w + pending[|w|..];
    } else {
      WindowGoesOn(t, pending, w, w[|pending|..]);
    }
  }

  lemma WindowGoesOn(t: Table, pending: Table, w: Table, more: Table)
    requires Fresh(t, w) && Fresh(t, pending) && w == pending + more
    ensures InternAll(t + pending, w) == t + w
  {
    hide DefaultSymbols, InternAll;
    KnownAddsNothing(t + pending, pending);
    InternAllConcat(t + pending, pending, more);
    forall i | 0 <= i < |more|
      ensures !Known(t + pending, more[i])
    {
      assert more[i] == w[|pending| + i];
      forall j | 0 <= j < |t + pending|
        ensures (t + pending)[j] != more[i]
      {
        assert j >= |t| ==> (t + pending)[j] == w[j - |t|];
      }
    }
    assert forall i :: 0 <= i < |more| ==> more[i] == w[|pending| + i];
    FreshIsAppended(t + pending, more);
    assert t + pending + more == t + w;
  }

  lemma {:induction false} InternAllConcat(t: Table, a: Table, b: Table)
    ensures InternAll(t, a + b) == InternAll(InternAll(t, a), b)
    decreases |a|
  {
    if a == [] {
      assert a + b == b;
    } else {
      assert (a + b)[1..] == a[1..] + b;
      InternAllConcat(Interned(t, a[0]), a[1..], b);
    }
  }

  /** Some id stands for one string in one table and for another in the other. */
  ghost predicate Differ(t: Table, r: Table) {
    exists k :: 0 <= k < |t| && k < |r| && t[k] != r[k]
  }

  /** Tables only grow, so once they differ they differ for good. */
  lemma DifferForGood(t: Table, r: Table, t': Table, r': Table)
    requires Differ(t, r) && t <= t' && r <= r'
    ensures Differ(t', r') && !(t' <= r')
  {
    var k :| 0 <= k < |t| && k < |r| && t[k] != r[k];
    assert t'[k] == t[k] && r'[k] == r[k];
  }

  /** A window that is not aligned with the pending symbols meets another symbol at its place. */
  lemma WindowOutOfStep(t: Table, pending: Table, w: Table)
    requires !Comparable(w, pending)
    ensures Differ(t + w, InternAll(t + pending, w))
  {
    InternAllGrows(t + pending, w);
    var r := InternAll(t + pending, w);
    var n := if |w| < |pending| then |w| else |pending|;
    assert (forall i :: 0 <= i < n ==> w[i] == pending[i]) ==> Comparable(w, pending);
    var i :| 0 <= i < n && w[i] != pending[i];
    assert (t + w)[|t| + i] == w[i];
    assert r[|t| + i] == (t + pending)[|t| + i] == pending[i];
  }

  /** As long as the windows are aligned, the rebuilt table is the token's table and the pending symbols. */
  lemma {:induction false} InStep(base: Table, links: seq<Link>)
    requires Aligned(base, links)
    ensures Rebuilt(base, StoredWindows(base, links)) == TableAfter(base, links) + Pending(base, links)
    ensures Fresh(TableAfter(base, links), Pending(base, links))
  {
    hide Fresh, InternAll, Window, Known, Comparable;
    if links == [] {
      NothingFresh(base);
    } else {
      var n := |links| - 1;
      var front := links[..n];
      InStep(base, front);
      var t, pending := TableAfter(base, front), Pending(base, front);
      var ws := StoredWindows(base, links);
      assert ws[..n] == StoredWindows(base, front);
      match links[n]
      case FirstParty(strings) =>
        var w := Window(t, strings);
        WindowIsFresh(t, strings);
        FreshIsAppended(t, w);
        WindowInStep(t, pending, w);
        FreshAfter(t, pending, w);
      case ThirdParty(symbols) =>
        WindowIsFresh(t + pending, symbols);
        FreshTogether(t, pending, Window(t + pending, symbols));
    }
  }

  lemma NothingFresh(t: Table)
    ensures Fresh(t, []) && t + [] == t
  {
  }

  lemma FreshAfter(t: Table, pending: Table, w: Table)
    requires Fresh(t, pending) && Fresh(t, w)
    ensures Fresh(t + w, if w <= pending then pending[|w|..] else [])
  {
    hide DefaultSymbols;
    if w <= pending {
      var rest := pending[|w|..];
      forall i | 0 <= i < |rest|
        ensures !Known(t + w, rest[i])
      {
        assert rest[i] == pending[|w| + i];
      }
    }
  }

  lemma FreshTogether(t: Table, a: Table, b: Table)
    requires Fresh(t, a) && Fresh(t + a, b)
    ensures Fresh(t, a + b) && t + a + b == t + (a + b)
  {
    hide DefaultSymbols;
  }

  lemma RebuiltGrows(base: Table, links: seq<Link>)
    requires links != []
    ensures var front := links[..|links| - 1];
            Rebuilt(base, StoredWindows(base, front)) <= Rebuilt(base, StoredWindows(base, links))
  {
    var n := |links| - 1;
    var ws := StoredWindows(base, links);
    assert ws[..n] == StoredWindows(base, links[..n]);
    InternAllGrows(Rebuilt(base, ws[..n]), ws[n]);
  }

  /** Reading a token back rebuilds a table that agrees with the token's own on every id of it if and
      only if every first-party window and the third-party symbols pending before it are aligned. */
  lemma RebuiltExtends(base: Table, links: seq<Link>)
    ensures TableAfter(base, links) <= Rebuilt(base, StoredWindows(base, links)) <==> Aligned(base, links)
  {
    if Aligned(base, links) {
      InStep(base, links);
    } else {
      FirstMisaligned(base, links);
    }
  }

  lemma {:induction false} FirstMisaligned(base: Table, links: seq<Link>)
    requires !Aligned(base, links)
    ensures Differ(TableAfter(base, links), Rebuilt(base, StoredWindows(base, links)))
    ensures !(TableAfter(base, links) <= Rebuilt(base, StoredWindows(base, links)))
  {
    var n := |links| - 1;
    var front := links[..n];
    var t, r := TableAfter(base, front), Rebuilt(base, StoredWindows(base, front));
    var t', r' := TableAfter(base, links), Rebuilt(base, StoredWindows(base, links));
    if Aligned(base, front) {
      InStep(base, front);
      var w := Window(t, links[n].strings);
      var ws := StoredWindows(base, links);
      assert ws[..n] == StoredWindows(base, front);
      WindowIsFresh(t, links[n].strings);
      FreshIsAppended(t, w);
      WindowOutOfStep(t, Pending(base, front), w);
      DifferForGood(t', r', t', r');
    } else {
      FirstMisaligned(base, front);
      TablesGrow(base, links, n);
      RebuiltGrows(base, links);
      hide TableAfter, Rebuilt, Differ;
      DifferForGood(t, r, t', r');
    }
  }

  /** The rebuilt table is the token's own exactly when, besides, no third-party symbol is left pending. */
  lemma RebuiltIsTable(base: Table, links: seq<Link>)
    ensures Rebuilt(base, StoredWindows(base, links)) == TableAfter(base, links)
            <==> Aligned(base, links) && Pending(base, links) == []
  {
    RebuiltExtends(base, links);
    if Aligned(base, links) {
      InStep(base, links);
    }
  }

  /** First-party blocks alone leave nothing pending, and are always aligned. */
  lemma {:induction false} FirstPartyAligned(base: Table, links: seq<Link>)
    requires forall i :: 0 <= i < |links| ==> links[i].FirstParty?
    ensures Aligned(base, links) && Pending(base, links) == []
  {
    if links != [] {
      FirstPartyAligned(base, links[..|links| - 1]);
    }
  }

  lemma {:induction false} TablesGrow(base: Table, links: seq<Link>, i: nat)
    requires i <= |links|
    ensures TableAfter(base, links[..i]) <= TableAfter(base, links)
    decreases |links| - i
  {
    if i < |links| {
      TablesGrow(base, links, i + 1);
      assert links[..i + 1][..i] == links[..i];
      var t := TableAfter(base, links[..i]);
      if links[i].FirstParty? {
        InternAllGrows(t, Window(t, links[i].strings));
      }
    } else {
      assert links[..i] == links;
    }
  }

  /** Every id that a first-party block can use resolves to the same string in the table the block
      was built with and in the token's table after every later append. */
  lemma BuiltIdsLast(base: Table, links: seq<Link>, i: nat, id: nat)
    requires i < |links| && links[i].FirstParty? && Defined(BuiltWith(base, links[..i + 1]), id)
    ensures Defined(TableAfter(base, links), id)
    ensures StrOf(TableAfter(base, links), id) == StrOf(BuiltWith(base, links[..i + 1]), id)
    ensures forall s :: s in links[i].strings ==>
              Known(BuiltWith(base, links[..i + 1]), s) && Known(TableAfter(base, links), s)
  {
    hide DefaultSymbols, InternAll, Window, TableAfter, StrOf, Defined;
    var front := links[..i + 1];
    AppendKeepsBuiltTable(base, front);
    TablesGrow(base, links, i + 1);
    var t, t' := TableAfter(base, front), TableAfter(base, links);
    assert t' == t + t'[|t|..];
    GrowthKeepsMeaning(t, t'[|t|..], id);
    InternAllGrows(TableAfter(base, front[..i]), links[i].strings);
    forall s | s in links[i].strings
      ensures Known(t, s) && Known(t', s)
    {
    }
  }

  /** The id means in the rebuilt table what it means in the token's. */
  predicate Survives(base: Table, links: seq<Link>, id: nat) {
    var r := Rebuilt(base, StoredWindows(base, links));
    Defined(r, id) && StrOf(r, id) == StrOf(TableAfter(base, links), id)
  }

  /** All the ids of the token's table survive reading it back if and only if the windows are aligned. */
  lemma IdsSurviveIff(base: Table, links: seq<Link>)
    ensures (forall id :: Defined(TableAfter(base, links), id) ==> Survives(base, links, id)) <==> Aligned(base, links)
  {
    RebuiltExtends(base, links);
    hide DefaultSymbols, Aligned, Rebuilt, StoredWindows, TableAfter;
    var t, r := TableAfter(base, links), Rebuilt(base, StoredWindows(base, links));
    if t <= r {
      assert r == t + r[|t|..];
      forall id | Defined(t, id)
        ensures Survives(base, links, id)
      {
        GrowthKeepsMeaning(t, r[|t|..], id);
      }
    }
    if forall id :: Defined(t, id) ==> Survives(base, links, id) {
      if t != [] {
        var last := OFFSET + |t| - 1;
        assert Defined(t, last) && Survives(base, links, last);
      }
      forall k | 0 <= k < |t|
        ensures r[k] == t[k]
      {
        assert Defined(t, OFFSET + k) && Survives(base, links, OFFSET + k);
      }
    }
  }

  /** Along any chain of appends whose windows are aligned, first-party blocks alone among them,
      every id that a first-party block can use resolves to the same string in the table it was
      built with, in the token's table after every later append, and in the rebuilt table. */
  lemma WindowsAgree(base: Table, links: seq<Link>, i: nat, id: nat)
    requires i < |links| && links[i].FirstParty? && Defined(BuiltWith(base, links[..i + 1]), id)
    requires Aligned(base, links)
    ensures StrOf(TableAfter(base, links), id) == StrOf(BuiltWith(base, links[..i + 1]), id)
    ensures Defined(Rebuilt(base, StoredWindows(base, links)), id)
    ensures StrOf(Rebuilt(base, StoredWindows(base, links)), id) == StrOf(BuiltWith(base, links[..i + 1]), id)
  {
    BuiltIdsLast(base, links, i, id);
    IdsSurviveIff(base, links);
    hide Aligned, StrOf, Defined;
    assert Survives(base, links, id);
  }

  /** The smallest chain that is not aligned: the id of the first-party symbol comes to mean the
      third-party one. */
  lemma ThirdPartyShiftsIds()
    ensures var links := [ThirdParty(["x"]), FirstParty(["y"])];
            && StrOf(TableAfter([], links), OFFSET) == "y"
            && StrOf(Rebuilt([], StoredWindows([], links)), OFFSET) == "x"
  {
    var a, b := ThirdParty(["x"]), FirstParty(["y"]);
    assert [a, b][..1] == [a] && [a][..0] == [];
    NewSymbol([], "x");
    NewSymbol([], "y");
    assert Known(["x"], "y") <==> "y" in DefaultSymbols();
    assert InternAll(["x"], ["y"]) == ["x", "y"];
    assert TableAfter([], [a]) == [];
    assert TableAfter([], [a, b]) == ["y"];
    assert StoredWindows([], [a, b]) == [["x"], ["y"]];
    assert [["x"], ["y"]][..1] == [["x"]] && [["x"]][..0] == [];
    assert Rebuilt([], [["x"]]) == ["x"];
  }

  lemma NewSymbol(t: Table, s: string)
    requires |s| == 1 && s !in t
    ensures InternAll(t, [s]) == t + [s] && Window(t, [s]) == [s]
  {
    assert !Known(t, s);
    assert [s][1..] == [];
    assert InternAll(t + [s], []) == t + [s];
  }
}
