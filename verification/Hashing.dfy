/** What terms and facts write to the hash builder (the Hash methods of datalog/datalog.go). A set writes its
    elements in its iteration order. */
module Hashing {
  import opened Types
  import opened Ordering
  import opened Digits
  import HashSets

  type Octet = x: int | 0 <= x < 256

  type Octets = seq<Octet>

  /** HashBuilder.Uint64 writes eight octets. */
  function LittleEndian(n: nat, k: nat): (r: Octets)
    ensures |r| == k
  {
    if k == 0 then [] else [n % 256] + LittleEndian(n / 256, k - 1)
  }

  function Unsigned(i: int64): uint64 { if i < 0 then i + 0x1_0000_0000_0000_0000 else i }

  function Stream(t: StoredTerm): Octets {
    match t
    case SVariable(v) => [0] + LittleEndian(v, 8)
    case SInteger(i) => [1] + LittleEndian(Unsigned(i), 8)
    case SString(s) => [2] + LittleEndian(s, 8)
    case SDate(d) => [3] + LittleEndian(d, 8)
    case SBytes(bs) => [4] + seq(|bs|, i requires 0 <= i < |bs| => bs[i] as int)
    case SBool(b) => [5] + [if b then 1 else 0]
    case SSet(es) => [6] + Joined(es)
  }

  function Joined(ts: seq<StoredTerm>): Octets {
    if ts == [] then [] else Stream(ts[0]) + Joined(ts[1..])
  }

  lemma {:induction false} JoinedConcat(xs: seq<StoredTerm>, ys: seq<StoredTerm>)
    ensures Joined(xs + ys) == Joined(xs) + Joined(ys)
  {
    hide Stream;
    if xs == [] {
      assert xs + ys == ys;
    } else {
      JoinedConcat(xs[1..], ys);
      assert (xs + ys)[1..] == xs[1..] + ys;
      assert Joined(xs + ys) == Stream(xs[0]) + (Joined(xs[1..]) + Joined(ys));
    }
  }

  // ---- When the order of the elements does not show ----

  ghost predicate CommuteAt(x: StoredTerm, y: StoredTerm) {
    Stream(x) + Stream(y) == Stream(y) + Stream(x)
  }

  ghost predicate Commute(ts: seq<StoredTerm>) {
    forall i, j :: 0 <= i < j < |ts| ==> CommuteAt(ts[i], ts[j])
  }

  /** What any two elements of any set in the term write, they write in either order. */
  ghost predicate Steady(t: StoredTerm) {
    t.SSet? ==> (forall e :: e in t.elems ==> Steady(e)) && Commute(t.elems)
  }

  ghost predicate AllSteady(ts: seq<StoredTerm>) {
    forall t :: t in ts ==> Steady(t)
  }

  /** All the orders in which the value can be stored write the same. */
  ghost predicate OneStream(t: StoredTerm) {
    forall u :: Proper(u) && ValueOf(u) == ValueOf(t) ==> Stream(u) == Stream(t)
  }

  lemma SteadyIff(t: StoredTerm)
    requires Proper(t)
    ensures Steady(t) <==> OneStream(t)
  {
    hide Stream, Steady, ValueOf, Proper;
    if Steady(t) {
      forall u | Proper(u) && ValueOf(u) == ValueOf(t)
        ensures Stream(u) == Stream(t)
      {
        SameStream(t, u);
      }
    } else {
      var u := OtherStream(t);
    }
  }

  lemma {:induction false} SameStream(t: StoredTerm, u: StoredTerm)
    requires Proper(t) && Proper(u) && ValueOf(t) == ValueOf(u) && Steady(t)
    ensures Stream(t) == Stream(u)
    decreases Depth(t), 0, 0
  {
    if t.SSet? {
      assert ValueOf(t) == Set(Values(t.elems)) && ValueOf(u) == Set(Values(u.elems));
      Reordered(t.elems, u.elems);
    }
  }

  lemma {:induction false} Reordered(xs: seq<StoredTerm>, ys: seq<StoredTerm>)
    requires AllProper(xs) && AllProper(ys) && Distinct(xs) && Distinct(ys) && Values(xs) == Values(ys)
    requires AllSteady(xs) && Commute(xs)
    ensures Joined(xs) == Joined(ys)
    decreases DepthAll(xs), 1, |ys|
  {
    hide Stream, ValueOf, Proper, Steady, CommuteAt;
    if ys == [] {
      DistinctCount(xs);
    } else {
      assert ValueOf(ys[0]) in Values(xs);
      var k :| 0 <= k < |xs| && ValueOf(xs[k]) == ValueOf(ys[0]);
      var rest := xs[..k] + xs[k + 1..];
      SameStream(xs[k], ys[0]);
      MoveFirst(xs, k);
      WithoutOne(xs, k, ys);
      Shallower(rest, xs);
      Reordered(rest, ys[1..]);
    }
  }

  lemma {:induction false} Shallower(xs: seq<StoredTerm>, ys: seq<StoredTerm>)
    requires forall x :: x in xs ==> x in ys
    ensures DepthAll(xs) <= DepthAll(ys)
  {
    hide Depth;
    if xs != [] {
      assert xs[0] in ys;
      Shallower(xs[1..], ys);
    }
  }

  /** An element may as well be written first. */
  lemma {:induction false} MoveFirst(xs: seq<StoredTerm>, k: nat)
    requires Commute(xs) && k < |xs|
    ensures Joined(xs) == Stream(xs[k]) + Joined(xs[..k] + xs[k + 1..])
    decreases k
  {
    hide Stream;
    if k == 0 {
      assert xs[..0] + xs[1..] == xs[1..];
    } else {
      var tail := xs[1..];
      MoveFirst(tail, k - 1);
      var less := tail[..k - 1] + tail[k..];
      assert xs[..k] + xs[k + 1..] == [xs[0]] + less;
      assert CommuteAt(xs[0], xs[k]);
      assert Joined([xs[0]] + less) == Stream(xs[0]) + Joined(less);
      Exchange(Stream(xs[0]), Stream(xs[k]), Joined(less));
    }
  }

  lemma Exchange(a: Octets, b: Octets, rest: Octets)
    requires a + b == b + a
    ensures a + (b + rest) == b + (a + rest)
  {
    assert a + (b + rest) == (a + b) + rest && b + (a + rest) == (b + a) + rest;
  }

  /** Two lists of the same values, less one value each. */
  lemma WithoutOne(xs: seq<StoredTerm>, k: nat, ys: seq<StoredTerm>)
    requires Distinct(xs) && Distinct(ys) && Values(xs) == Values(ys)
    requires k < |xs| && ys != [] && ValueOf(xs[k]) == ValueOf(ys[0])
    ensures var rest := xs[..k] + xs[k + 1..];
            && Distinct(rest) && Distinct(ys[1..]) && Values(rest) == Values(ys[1..])
            && (forall x :: x in rest ==> x in xs)
            && (Commute(xs) ==> Commute(rest))
  {
    hide ValueOf, CommuteAt;
    var rest, v := xs[..k] + xs[k + 1..], ValueOf(xs[k]);
    assert forall i :: 0 <= i < |rest| ==> rest[i] == xs[if i < k then i else i + 1];
    assert Values(rest) == Values(xs) - {v} by {
      forall x | x in xs && ValueOf(x) != v
        ensures x in rest
      {
        var i :| 0 <= i < |xs| && xs[i] == x;
        assert rest[if i < k then i else i - 1] == x;
      }
    }
    assert Values(ys[1..]) == Values(ys) - {v} by {
      assert ys == [ys[0]] + ys[1..];
    }
  }

  /** Another order that writes something else. */
  lemma {:induction false} OtherStream(t: StoredTerm) returns (u: StoredTerm)
    requires Proper(t) && !Steady(t)
    ensures Proper(u) && ValueOf(u) == ValueOf(t) && Stream(u) != Stream(t)
    decreases t
  {
    var es := t.elems;
    if e :| e in es && !Steady(e) {
      var d := OtherStream(e);
      var i :| 0 <= i < |es| && es[i] == e;
      u := SSet(es[i := d]);
      hide Steady, Stream, ValueOf, Proper;
      Replaced(es, i, d);
    } else {
      var i, j :| 0 <= i < j < |es| && !CommuteAt(es[i], es[j]);
      var rest := es[..i] + es[i + 1..j] + es[j + 1..];
      hide Steady, Stream, ValueOf, Proper;
      SamePair(es, i, j);
      Swapped(es, es[i], es[j], rest);
      u := SSet([es[i], es[j]] + rest);
      if Stream(u) == Stream(t) {
        u := SSet([es[j], es[i]] + rest);
      }
    }
  }

  /** Another stream of one element shows in the whole. */
  lemma Replaced(ts: seq<StoredTerm>, i: nat, d: StoredTerm)
    requires i < |ts| && Proper(SSet(ts)) && Proper(d) && ValueOf(d) == ValueOf(ts[i]) && Stream(d) != Stream(ts[i])
    ensures var u := SSet(ts[i := d]);
            Proper(u) && ValueOf(u) == ValueOf(SSet(ts)) && Stream(u) != Stream(SSet(ts))
  {
    var us := ts[i := d];
    OtherElement(ts, i, d);
    hide Stream, ValueOf, Proper;
    assert ts == ts[..i] + [ts[i]] + ts[i + 1..] && us == ts[..i] + [d] + ts[i + 1..];
    JoinedAround(ts[..i], ts[i], ts[i + 1..]);
    JoinedAround(ts[..i], d, ts[i + 1..]);
    Cancel(Joined(ts[..i]), Stream(ts[i]), Stream(d), Joined(ts[i + 1..]));
    SetStreams(ts, us);
  }

  lemma OtherElement(ts: seq<StoredTerm>, i: nat, d: StoredTerm)
    requires i < |ts| && Proper(SSet(ts)) && Proper(d) && ValueOf(d) == ValueOf(ts[i])
    ensures Proper(SSet(ts[i := d])) && ValueOf(SSet(ts[i := d])) == ValueOf(SSet(ts))
  {
    var us := ts[i := d];
    assert ValueOf(SSet(us)) == Set(Values(us)) && ValueOf(SSet(ts)) == Set(Values(ts));
    hide ValueOf;
    assert forall k :: 0 <= k < |ts| ==> ValueOf(us[k]) == ValueOf(ts[k]);
    SameValues(us, ts);
    SameValues(ts, us);
  }

  lemma SameValues(xs: seq<StoredTerm>, ys: seq<StoredTerm>)
    requires |xs| == |ys| && forall k :: 0 <= k < |xs| ==> ValueOf(xs[k]) == ValueOf(ys[k])
    ensures Values(xs) <= Values(ys)
  {
    hide ValueOf;
    forall x | x in xs
      ensures ValueOf(x) in Values(ys)
    {
      var k :| 0 <= k < |xs| && xs[k] == x;
      assert ys[k] in ys;
    }
  }

  lemma JoinedAround(xs: seq<StoredTerm>, t: StoredTerm, ys: seq<StoredTerm>)
    ensures Joined(xs + [t] + ys) == Joined(xs) + Stream(t) + Joined(ys)
  {
    hide Stream;
    JoinedConcat(xs + [t], ys);
    JoinedConcat(xs, [t]);
    assert Joined([t]) == Stream(t) + Joined([]);
  }

  lemma Cancel(pre: Octets, a: Octets, b: Octets, post: Octets)
    ensures pre + a + post == pre + b + post <==> a == b
  {
    var x, y := pre + a + post, pre + b + post;
    assert |x| == |pre| + |a| + |post| && |y| == |pre| + |b| + |post|;
    assert a == x[|pre|..|x| - |post|] && b == y[|pre|..|y| - |post|];
  }

  /** Of two orders that begin with elements that do not commute, one is not written like the list. */
  lemma Swapped(ts: seq<StoredTerm>, a: StoredTerm, b: StoredTerm, rest: seq<StoredTerm>)
    requires multiset([a, b] + rest) == multiset(ts) == multiset([b, a] + rest)
    requires Proper(SSet(ts)) && !CommuteAt(a, b)
    ensures var x, y := SSet([a, b] + rest), SSet([b, a] + rest);
            && Proper(x) && Proper(y) && ValueOf(x) == ValueOf(SSet(ts)) == ValueOf(y)
            && Stream(x) != Stream(y)
  {
    hide Stream, ValueOf, Proper;
    Shuffled([a, b] + rest, ts);
    Shuffled([b, a] + rest, ts);
    JoinedPair(a, b, rest);
    JoinedPair(b, a, rest);
    var ab, ba := Stream(a) + Stream(b), Stream(b) + Stream(a);
    assert (ab + Joined(rest))[..|ab|] == ab && (ba + Joined(rest))[..|ab|] == ba;
    SetStreams([a, b] + rest, [b, a] + rest);
  }

  lemma SamePair(ts: seq<StoredTerm>, i: nat, j: nat)
    requires i < j < |ts|
    ensures var rest := ts[..i] + ts[i + 1..j] + ts[j + 1..];
            multiset([ts[i], ts[j]] + rest) == multiset(ts) == multiset([ts[j], ts[i]] + rest)
  {
    assert ts == ts[..i] + [ts[i]] + ts[i + 1..j] + [ts[j]] + ts[j + 1..];
  }

  lemma SetStreams(xs: seq<StoredTerm>, ys: seq<StoredTerm>)
    ensures Stream(SSet(xs)) == Stream(SSet(ys)) <==> Joined(xs) == Joined(ys)
  {
    assert Stream(SSet(xs))[1..] == Joined(xs) && Stream(SSet(ys))[1..] == Joined(ys);
  }

  lemma JoinedPair(a: StoredTerm, b: StoredTerm, rest: seq<StoredTerm>)
    ensures Joined([a, b] + rest) == Stream(a) + Stream(b) + Joined(rest)
  {
    hide Stream;
    assert ([a, b] + rest)[1..] == [b] + rest && ([b] + rest)[1..] == rest;
  }

  /** The same elements in another order. */
  lemma Shuffled(xs: seq<StoredTerm>, ts: seq<StoredTerm>)
    requires multiset(xs) == multiset(ts) && Proper(SSet(ts))
    ensures Proper(SSet(xs)) && ValueOf(SSet(xs)) == ValueOf(SSet(ts))
  {
    assert ValueOf(SSet(xs)) == Set(Values(xs)) && ValueOf(SSet(ts)) == Set(Values(ts));
    hide ValueOf;
    SameElements(xs, ts);
    SameElements(ts, xs);
    assert Values(xs) == Values(ts);
    DistinctCount(ts);
    assert |xs| == |multiset(xs)| && |ts| == |multiset(ts)|;
    CountDistinct(xs);
  }

  // ---- Which sets these are ----

  /** A term that is neither a set nor a byte string, with the ids that fit in 64 bits. */
  predicate Scalar(t: StoredTerm) {
    match t
    case SVariable(v) => v < 0x1_0000_0000_0000_0000
    case SString(s) => s < 0x1_0000_0000_0000_0000
    case SBytes(_) => false
    case SSet(_) => false
    case _ => true
  }

  lemma {:induction false} LittleEndianIsExact(m: nat, n: nat, k: nat)
    requires LittleEndian(m, k) == LittleEndian(n, k)
    ensures m % Pow256(k) == n % Pow256(k)
  {
    if k > 0 {
      var a, b := LittleEndian(m, k), LittleEndian(n, k);
      assert a[0] == b[0] && a[1..] == LittleEndian(m / 256, k - 1) && b[1..] == LittleEndian(n / 256, k - 1);
      LittleEndianIsExact(m / 256, n / 256, k - 1);
      LastOctet(m, Pow256(k - 1));
      LastOctet(n, Pow256(k - 1));
    }
  }

  function Pow256(k: nat): (r: nat)
    ensures r > 0
  {
    if k == 0 then 1 else 256 * Pow256(k - 1)
  }

  lemma LastOctet(n: nat, p: nat)
    requires p > 0
    ensures n % (256 * p) == 256 * (n / 256 % p) + n % 256
  {
    var q, r := n / 256 / p, n / 256 % p;
    assert n == 256 * (q * p + r) + n % 256;
    assert n == (256 * p) * q + (256 * r + n % 256);
    Remainder(n, 256 * p, q, 256 * r + n % 256);
  }

  lemma Remainder(n: nat, d: nat, q: nat, r: nat)
    requires d > 0 && n == d * q + r && r < d
    ensures n % d == r
  {
    MultiplesAreFar(q - n / d, d);
    assert (q - n / d) * d == n % d - r;
  }

  lemma MultiplesAreFar(k: int, d: nat)
    ensures k >= 1 ==> k * d >= d
    ensures k <= -1 ==> k * d + d <= 0
  {
  }

  lemma LittleEndianApart(m: uint64, n: uint64)
    ensures LittleEndian(m, 8) == LittleEndian(n, 8) <==> m == n
  {
    if LittleEndian(m, 8) == LittleEndian(n, 8) {
      LittleEndianIsExact(m, n, 8);
      assert Pow256(8) == 0x1_0000_0000_0000_0000;
    }
  }

  lemma ScalarStreamsApart(a: StoredTerm, b: StoredTerm)
    requires Scalar(a) && Scalar(b)
    ensures Stream(a) == Stream(b) <==> a == b
    ensures Stream(a) != [] && Stream(a)[0] == TypeRank(a)
    ensures TypeRank(a) == TypeRank(b) ==> |Stream(a)| == |Stream(b)|
  {
    hide LittleEndian;
    if Stream(a) == Stream(b) {
      assert Stream(a)[1..] == Stream(b)[1..] && Stream(a)[0] == Stream(b)[0];
      match a
      case SVariable(v) => LittleEndianApart(v, b.v);
      case SInteger(i) => LittleEndianApart(Unsigned(i), Unsigned(b.i));
      case SString(n) => LittleEndianApart(n, b.s);
      case SDate(d) => LittleEndianApart(d, b.d);
      case SBool(_) => assert Stream(a)[1] == Stream(b)[1];
    }
  }

  /** Different scalars never commute. */
  lemma ScalarsCommute(a: StoredTerm, b: StoredTerm)
    requires Scalar(a) && Scalar(b)
    ensures CommuteAt(a, b) <==> a == b
  {
    ScalarStreamsApart(a, b);
    ScalarStreamsApart(b, a);
    hide Stream;
    var x, y := Stream(a), Stream(b);
    if x + y == y + x {
      assert (x + y)[0] == x[0] && (y + x)[0] == y[0];
      assert (x + y)[..|x|] == x && (y + x)[..|y|] == y;
    }
  }

  /** A set of scalars writes the same in every order exactly when it has at most one element. */
  lemma ScalarSets(es: seq<StoredTerm>)
    requires Proper(SSet(es)) && forall e :: e in es ==> Scalar(e)
    ensures OneStream(SSet(es)) <==> |es| <= 1
  {
    SteadyIff(SSet(es));
    hide Stream, OneStream, Scalar;
    forall e | e in es
      ensures !e.SSet?
    {
      NoScalarSets(e);
    }
    forall i, j | 0 <= i < j < |es|
      ensures !CommuteAt(es[i], es[j])
    {
      assert ValueOf(es[i]) != ValueOf(es[j]);
      ScalarsCommute(es[i], es[j]);
    }
    if |es| > 1 {
      assert !CommuteAt(es[0], es[1]);
    }
  }

  lemma NoScalarSets(t: StoredTerm)
    requires Scalar(t)
    ensures !t.SSet?
  {
  }

  /** No set in the value has two elements. */
  ghost predicate Single(v: Term<nat>) {
    v.Set? ==> |v.elems| <= 1 && forall e :: e in v.elems ==> Single(e)
  }

  lemma {:induction false} SingleIsSteady(t: StoredTerm)
    requires Proper(t) && Single(ValueOf(t))
    ensures Steady(t)
  {
    if t.SSet? {
      assert ValueOf(t) == Set(Values(t.elems));
      DistinctCount(t.elems);
      forall e | e in t.elems
        ensures Steady(e)
      {
        assert ValueOf(e) in Values(t.elems);
        SingleIsSteady(e);
      }
    }
  }

  /** The smallest set that hashes by its iteration order, and two byte strings that do not. */
  lemma OrderShows()
    ensures var a, b := SSet([SInteger(1), SInteger(2)]), SSet([SInteger(2), SInteger(1)]);
            && Proper(a) && Proper(b) && ValueOf(a) == ValueOf(b) && Compare(a, b) == 0
            && Stream(a) != Stream(b) && !OneStream(a)
    ensures Proper(SSet([SBytes([]), SBytes([4])])) && OneStream(SSet([SBytes([]), SBytes([4])]))
  {
    ScalarsCommute(SInteger(1), SInteger(2));
    hide Stream, Compare, OneStream;
    TwoOrders(SInteger(1), SInteger(2));
    BytesMayCommute();
  }

  /** The two orders of a set of two elements. */
  lemma TwoOrders(x: StoredTerm, y: StoredTerm)
    requires Proper(x) && Proper(y) && ValueOf(x) != ValueOf(y)
    ensures var a, b := SSet([x, y]), SSet([y, x]);
            && Proper(a) && Proper(b) && ValueOf(a) == ValueOf(b) && Compare(a, b) == 0
            && (Stream(a) == Stream(b) <==> CommuteAt(x, y)) && (OneStream(a) ==> CommuteAt(x, y))
  {
    var a, b := SSet([x, y]), SSet([y, x]);
    assert a.elems[0] == x && a.elems[1] == y && b.elems[0] == y && b.elems[1] == x;
    assert ValueOf(a) == Set(Values(a.elems)) && ValueOf(b) == Set(Values(b.elems));
    hide Stream, ValueOf;
    assert Proper(a) && Proper(b) && Values(a.elems) == Values(b.elems);
    hide Proper;
    CompareIsEquality(a, b);
    hide Compare;
    JoinedPair(x, y, []);
    JoinedPair(y, x, []);
    assert [x, y] + [] == [x, y] && [y, x] + [] == [y, x];
    SetStreams(a.elems, b.elems);
    var xy, yx := Stream(x) + Stream(y), Stream(y) + Stream(x);
    assert Joined([]) == [] && xy + [] == xy && yx + [] == yx;
  }

  lemma BytesMayCommute()
    ensures Proper(SSet([SBytes([]), SBytes([4])]))
    ensures OneStream(SSet([SBytes([]), SBytes([4])]))
  {
    var t := SSet([SBytes([]), SBytes([4])]);
    assert Stream(t.elems[0]) == [4] && Stream(t.elems[1]) == [4, 4];
    assert CommuteAt(t.elems[0], t.elems[1]);
    SteadyIff(t);
  }

  // ---- Facts ----

  datatype StoredFact = StoredFact(name: nat, terms: Slice)

  function Ascii(s: string): Octets {
    seq(|s|, i requires 0 <= i < |s| => s[i] as int % 256)
  }

  /** Predicate.Hash: the name as the text of its id, then the terms. */
  function FactStream(f: StoredFact): Octets {
    Ascii("#" + FormatUint(f.name, 10)) + Joined(Items(f.terms))
  }

  /** Predicate.Compare. */
  function CompareFacts(f: StoredFact, g: StoredFact): int {
    if f.name != g.name then CompareInt(f.name, g.name) else ComparedSlices(f.terms, g.terms)
  }

  predicate SameFact(f: StoredFact, g: StoredFact) { CompareFacts(f, g) == 0 }

  /** A fact as the engine makes them: its terms are a slice, and no set holds a value twice. */
  ghost predicate Made(f: StoredFact) { f.terms.Elems? && AllProper(f.terms.ts) }

  /** Every stored form of the fact writes the same. */
  ghost predicate FactOneStream(f: StoredFact) {
    forall g :: Made(g) && SameFact(f, g) ==> FactStream(g) == FactStream(f)
  }

  lemma SameFactMeans(f: StoredFact, g: StoredFact)
    requires Made(f) && Made(g)
    ensures SameFact(f, g) <==>
              && f.name == g.name && |f.terms.ts| == |g.terms.ts|
              && forall i :: 0 <= i < |f.terms.ts| ==> ValueOf(f.terms.ts[i]) == ValueOf(g.terms.ts[i])
  {
    SlicesEqual(f.terms, g.terms);
    hide ValueOf, ComparedSlices, Proper;
  }

  /** A fact hashes alike in all its stored forms exactly when its terms do. */
  lemma FactSteadyIff(f: StoredFact)
    requires Made(f)
    ensures AllSteady(f.terms.ts) <==> FactOneStream(f)
  {
    hide Stream, Steady, ValueOf, Proper, FactStream, SameFact, FormatUint;
    if AllSteady(f.terms.ts) {
      forall g | Made(g) && SameFact(f, g)
        ensures FactStream(g) == FactStream(f)
      {
        SameFactMeans(f, g);
        SameTerms(f.terms.ts, g.terms.ts);
        FactStreams(f, g);
      }
    } else {
      var i :| 0 <= i < |f.terms.ts| && !Steady(f.terms.ts[i]);
      var u := OtherStream(f.terms.ts[i]);
      var g := StoredFact(f.name, Elems(f.terms.ts[i := u]));
      OtherTerm(f.terms.ts, i, u);
      SameFactMeans(f, g);
      FactStreams(f, g);
    }
  }

  lemma FactStreams(f: StoredFact, g: StoredFact)
    requires f.name == g.name
    ensures FactStream(f) == FactStream(g) <==> Joined(Items(f.terms)) == Joined(Items(g.terms))
  {
    hide FormatUint, Joined;
    var n := |Ascii("#" + FormatUint(f.name, 10))|;
    assert FactStream(f)[n..] == Joined(Items(f.terms)) && FactStream(g)[n..] == Joined(Items(g.terms));
  }

  lemma OtherTerm(ts: seq<StoredTerm>, i: nat, u: StoredTerm)
    requires i < |ts| && Stream(u) != Stream(ts[i])
    ensures Joined(ts[i := u]) != Joined(ts)
  {
    hide Stream;
    assert ts == ts[..i] + [ts[i]] + ts[i + 1..] && ts[i := u] == ts[..i] + [u] + ts[i + 1..];
    JoinedAround(ts[..i], ts[i], ts[i + 1..]);
    JoinedAround(ts[..i], u, ts[i + 1..]);
    Cancel(Joined(ts[..i]), Stream(ts[i]), Stream(u), Joined(ts[i + 1..]));
  }

  lemma {:induction false} SameTerms(xs: seq<StoredTerm>, ys: seq<StoredTerm>)
    requires AllProper(xs) && AllProper(ys) && AllSteady(xs) && |xs| == |ys|
    requires forall i :: 0 <= i < |xs| ==> ValueOf(xs[i]) == ValueOf(ys[i])
    ensures Joined(xs) == Joined(ys)
  {
    hide Stream, Steady, ValueOf, Proper;
    if xs != [] {
      assert xs[0] in xs && ys[0] in ys;
      SameStream(xs[0], ys[0]);
      SameTerms(xs[1..], ys[1..]);
    }
  }

  // ---- What a hash set of facts may rely on ----

  type SteadyFact = f: StoredFact | Made(f) && AllSteady(f.terms.ts) witness StoredFact(0, Elems([]))

  predicate SameSteady(f: SteadyFact, g: SteadyFact) { SameFact(f, g) }

  function HashWith(h: Octets -> uint64): SteadyFact -> uint64 {
    (f: SteadyFact) => h(FactStream(f))
  }

  /** Whatever the hash function, steady facts are lawful elements of a hash set. */
  lemma SteadyFactsLawful(h: Octets -> uint64)
    ensures HashSets.Lawful(SameSteady, HashWith(h))
  {
    hide SameFact, FactStream, ValueOf, Proper, Steady;
    forall f: SteadyFact, g: SteadyFact
      ensures SameSteady(f, g) <==> SameSteady(g, f)
      ensures SameSteady(f, f)
      ensures SameSteady(f, g) ==> FactStream(f) == FactStream(g)
    {
      SameFactMeans(f, g);
      SameFactMeans(g, f);
      SameFactMeans(f, f);
      FactSteadyIff(f);
    }
    forall f: SteadyFact, g: SteadyFact, k: SteadyFact | SameSteady(f, g) && SameSteady(g, k)
      ensures SameSteady(f, k)
    {
      SameFactMeans(f, g);
      SameFactMeans(g, k);
      SameFactMeans(f, k);
    }
  }

  /** The hash function does not tell the stored forms of the fact apart. */
  ghost predicate HashesAlike(f: StoredFact, h: Octets -> uint64) {
    forall g :: Made(g) && SameFact(f, g) ==> h(FactStream(g)) == h(FactStream(f))
  }

  /** Only of steady facts can a hash set rely on that, whatever the hash function: another fact has an equal
      stored form, and some hash function tells the two apart. */
  lemma SteadyIffHashes(f: StoredFact)
    requires Made(f)
    ensures AllSteady(f.terms.ts) <==> forall h :: HashesAlike(f, h)
  {
    FactSteadyIff(f);
    hide SameFact, FactStream, Made, AllSteady;
    if forall h :: HashesAlike(f, h) {
      assert HashesAlike(f, Telling(FactStream(f)));
    }
  }

  /** A hash function that tells one stream from all others. */
  function Telling(s: Octets): Octets -> uint64 { r => if r == s then 0 else 1 }

  /** A fact with a set of two numbers has a stored form that writes something else, and a set of byte strings
      may yet be steady. */
  lemma OneFactTwoStreams()
    ensures var t := SSet([SInteger(1), SInteger(2)]);
            !FactOneStream(StoredFact(0, Elems([t])))
    ensures FactOneStream(StoredFact(0, Elems([SSet([SBytes([]), SBytes([4])])])))
  {
    OrderShows();
    hide ValueOf, Stream, OneStream;
    var t, b := SSet([SInteger(1), SInteger(2)]), SSet([SBytes([]), SBytes([4])]);
    SteadyIff(t);
    SteadyIff(b);
    hide Steady, Proper;
    assert !OneStream(t);
    FactSteadyIff(StoredFact(0, Elems([t])));
    FactSteadyIff(StoredFact(0, Elems([b])));
    assert [t][0] == t;
  }

  /** Two stored forms of one fact that hash apart are both kept in a hash set, and counted as two. */
  method CountEquals(f: StoredFact, g: StoredFact, h: Octets -> uint64) returns (count: int)
    requires SameFact(f, g)
    ensures count == if h(FactStream(f)) == h(FactStream(g)) then 1 else 2
  {
    var s := HashSets.InsertEquals(SameFact, (k: StoredFact) => h(FactStream(k)), f, g);
    count := s.size;
  }
}
