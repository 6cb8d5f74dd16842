/** The order of terms (Compare of datalog/datalog.go, internal/set/helpers.go). A set is the list of
    its elements in whatever order the hash set yields them. */
module Ordering {
  import opened Types

  /** A term as it is stored: symbols are ids, sets have an iteration order. */
  datatype StoredTerm =
    | SVariable(v: nat)
    | SInteger(i: int64)
    | SString(s: nat)
    | SDate(d: uint64)
    | SBytes(bytes: seq<bv8>)
    | SBool(b: bool)
    | SSet(elems: seq<StoredTerm>)

  function TypeRank(t: StoredTerm): nat {
    match t
    case SVariable(_) => 0
    case SInteger(_) => 1
    case SString(_) => 2
    case SDate(_) => 3
    case SBytes(_) => 4
    case SBool(_) => 5
    case SSet(_) => 6
  }

  /** cmp.Compare. */
  function CompareInt(x: int, y: int): int { if x < y then -1 else if x > y then 1 else 0 }

  function CompareBool(a: bool, b: bool): int { if a == b then 0 else if !a then -1 else 1 }

  /** bytes.Compare. */
  function CompareBytes(a: seq<bv8>, b: seq<bv8>): int {
    if a == [] then (if b == [] then 0 else -1)
    else if b == [] then 1
    else if a[0] != b[0] then (if a[0] < b[0] then -1 else 1)
    else CompareBytes(a[1..], b[1..])
  }

  function Max(x: nat, y: nat): nat { if x < y then y else x }

  /** How deeply sets are nested. */
  ghost function Depth(t: StoredTerm): nat {
    if t.SSet? then 1 + DepthAll(t.elems) else 0
  }

  ghost function DepthAll(ts: seq<StoredTerm>): (r: nat)
    ensures forall t :: t in ts ==> Depth(t) <= r
  {
    if ts == [] then 0 else Max(Depth(ts[0]), DepthAll(ts[1..]))
  }

  function Compare(a: StoredTerm, b: StoredTerm): int
    decreases Max(Depth(a), Depth(b)), 0, 0
  {
    if TypeRank(a) != TypeRank(b) then CompareInt(TypeRank(a), TypeRank(b))
    else
      match a
      case SVariable(v) => CompareInt(v, b.v)
      case SInteger(i) => CompareInt(i, b.i)
      case SString(s) => CompareInt(s, b.s)
      case SDate(d) => CompareInt(d, b.d)
      case SBytes(bs) => CompareBytes(bs, b.bytes)
      case SBool(x) => CompareBool(x, b.b)
      case SSet(es) => Compared(es, b.elems)
  }

  /** set.Compared: lengths first, then the sorted elements one by one. */
  function Compared(xs: seq<StoredTerm>, ys: seq<StoredTerm>): int
    decreases Max(DepthAll(xs), DepthAll(ys)), 3, 0
  {
    if |xs| != |ys| then CompareInt(|xs|, |ys|)
    else CompareEach(Sorted(xs), Sorted(ys))
  }

  /** The first comparison of two lists of one length that is not 0, if any. */
  function CompareEach(xs: seq<StoredTerm>, ys: seq<StoredTerm>): int
    requires |xs| == |ys|
    decreases Max(DepthAll(xs), DepthAll(ys)), 1, |xs|
  {
    if xs == [] then 0
    else if Compare(xs[0], ys[0]) != 0 then Compare(xs[0], ys[0])
    else CompareEach(xs[1..], ys[1..])
  }

  /** Sorting by Compare. */
  function Sorted(ts: seq<StoredTerm>): (r: seq<StoredTerm>)
    ensures |r| == |ts| && DepthAll(r) == DepthAll(ts)
    decreases DepthAll(ts), 2, |ts|
  {
    if ts == [] then [] else InsertSorted(ts[0], Sorted(ts[1..]))
  }

  function InsertSorted(t: StoredTerm, ts: seq<StoredTerm>): (r: seq<StoredTerm>)
    ensures |r| == |ts| + 1 && DepthAll(r) == Max(Depth(t), DepthAll(ts))
    decreases Max(Depth(t), DepthAll(ts)), 1, |ts|
  {
    if ts == [] then [t]
    else if Compare(t, ts[0]) <= 0 then [t] + ts
    else [ts[0]] + InsertSorted(t, ts[1..])
  }

  /** A slice, which may be nil. */
  datatype Slice = Nil | Elems(ts: seq<StoredTerm>)

  function Items(s: Slice): seq<StoredTerm> { if s.Nil? then [] else s.ts }

  /** ComparedSlices: anything is greater than nil, nil itself included. */
  function ComparedSlices(a: Slice, b: Slice): int {
    if b.Nil? then 1
    else if |Items(a)| != |b.ts| then CompareInt(|Items(a)|, |b.ts|)
    else CompareEach(Items(a), b.ts)
  }

  /** The loop of Compared and ComparedSlices. */
  method CompareItems(xs: seq<StoredTerm>, ys: seq<StoredTerm>) returns (r: int)
    requires |xs| == |ys|
    ensures r == CompareEach(xs, ys)
  {
    hide Compare;
    for i := 0 to |xs|
      invariant CompareEach(xs, ys) == CompareEach(xs[i..], ys[i..])
    {
      var x := Compare(xs[i], ys[i]);
      if x != 0 {
        return x;
      }
    }
    r := 0;
  }

  method CompareSlices(a: Slice, b: Slice) returns (r: int)
    ensures r == ComparedSlices(a, b)
  {
    if b.Nil? {
      return 1;
    }
    var x := CompareInt(|Items(a)|, |b.ts|);
    if x != 0 {
      return x;
    }
    r := CompareItems(Items(a), b.ts);
  }

  // ---- Compare is a total preorder ----

  lemma PartsAreShallower(xs: seq<StoredTerm>)
    requires xs != []
    ensures Depth(xs[0]) <= DepthAll(xs) && DepthAll(xs[1..]) <= DepthAll(xs)
  {
  }

  lemma {:induction false} BytesOrder(a: seq<bv8>, b: seq<bv8>, c: seq<bv8>)
    ensures CompareBytes(a, b) == -CompareBytes(b, a)
    ensures CompareBytes(a, b) == 0 <==> a == b
    ensures CompareBytes(a, b) <= 0 && CompareBytes(b, c) <= 0 ==> CompareBytes(a, c) <= 0
  {
    if a != [] && b != [] {
      assert a == [a[0]] + a[1..] && b == [b[0]] + b[1..];
      BytesOrder(a[1..], b[1..], if c == [] then [] else c[1..]);
    }
  }

  /** Comparing the other way round gives the opposite sign. */
  lemma {:induction false} CompareFlips(a: StoredTerm, b: StoredTerm)
    ensures Compare(a, b) == -Compare(b, a)
    decreases Max(Depth(a), Depth(b)), 0, 0
  {
    if a.SBytes? && b.SBytes? {
      BytesOrder(a.bytes, b.bytes, []);
    } else if a.SSet? && b.SSet? && |a.elems| == |b.elems| {
      EachFlips(Sorted(a.elems), Sorted(b.elems));
    }
  }

  lemma {:induction false} EachFlips(xs: seq<StoredTerm>, ys: seq<StoredTerm>)
    requires |xs| == |ys|
    ensures CompareEach(xs, ys) == -CompareEach(ys, xs)
    decreases Max(DepthAll(xs), DepthAll(ys)), 1, |xs|
  {
    hide Compare;
    if xs != [] {
      CompareFlips(xs[0], ys[0]);
      EachFlips(xs[1..], ys[1..]);
    }
  }

  lemma {:induction false} CompareTransitive(a: StoredTerm, b: StoredTerm, c: StoredTerm)
    requires Compare(a, b) <= 0 && Compare(b, c) <= 0
    ensures Compare(a, c) <= 0
    ensures Compare(a, c) == 0 ==> Compare(a, b) == 0 && Compare(b, c) == 0
    decreases Max(Depth(a), Max(Depth(b), Depth(c))), 0, 0
  {
    if TypeRank(a) == TypeRank(b) == TypeRank(c) {
      if a.SBytes? {
        BytesOrder(a.bytes, b.bytes, c.bytes);
        BytesOrder(a.bytes, c.bytes, b.bytes);
        BytesOrder(b.bytes, c.bytes, a.bytes);
      } else if a.SSet? && |a.elems| == |b.elems| == |c.elems| {
        hide Sorted;
        EachTransitive(Sorted(a.elems), Sorted(b.elems), Sorted(c.elems));
      }
    }
  }

  lemma {:induction false} EachTransitive(xs: seq<StoredTerm>, ys: seq<StoredTerm>, zs: seq<StoredTerm>)
    requires |xs| == |ys| == |zs| && CompareEach(xs, ys) <= 0 && CompareEach(ys, zs) <= 0
    ensures CompareEach(xs, zs) <= 0
    ensures CompareEach(xs, zs) == 0 ==> CompareEach(xs, ys) == 0 && CompareEach(ys, zs) == 0
    decreases Max(DepthAll(xs), Max(DepthAll(ys), DepthAll(zs))), 1, |xs|
  {
    hide Compare, Depth, DepthAll;
    if xs != [] {
      PartsAreShallower(xs);
      PartsAreShallower(ys);
      PartsAreShallower(zs);
      CompareTransitive(xs[0], ys[0], zs[0]);
      if Compare(xs[0], ys[0]) == 0 && Compare(ys[0], zs[0]) == 0 {
        CompareFlips(xs[0], ys[0]);
        CompareFlips(ys[0], zs[0]);
        CompareFlips(xs[0], zs[0]);
        CompareTransitive(zs[0], ys[0], xs[0]);
        EachTransitive(xs[1..], ys[1..], zs[1..]);
      }
    }
  }

  // ---- Sorting sorts ----

  ghost predicate IsSorted(ts: seq<StoredTerm>) {
    forall i, j :: 0 <= i < j < |ts| ==> Compare(ts[i], ts[j]) <= 0
  }

  lemma PutFirst(t: StoredTerm, ts: seq<StoredTerm>)
    requires IsSorted(ts) && forall j :: 0 <= j < |ts| ==> Compare(t, ts[j]) <= 0
    ensures IsSorted([t] + ts)
  {
    hide Compare;
  }

  lemma FirstIsLeast(t: StoredTerm, ts: seq<StoredTerm>, r: seq<StoredTerm>)
    requires ts != [] && IsSorted(ts) && Compare(ts[0], t) <= 0 && multiset(r) == multiset([t] + ts[1..])
    ensures forall j :: 0 <= j < |r| ==> Compare(ts[0], r[j]) <= 0
  {
    hide Compare;
    forall j | 0 <= j < |r|
      ensures Compare(ts[0], r[j]) <= 0
    {
      assert r[j] in multiset(r);
      assert r[j] == t || r[j] in ts[1..];
    }
  }

  lemma {:induction false} InsertSorts(t: StoredTerm, ts: seq<StoredTerm>)
    requires IsSorted(ts)
    ensures IsSorted(InsertSorted(t, ts)) && multiset(InsertSorted(t, ts)) == multiset([t] + ts)
    decreases |ts|
  {
    hide Compare, DepthAll, Depth;
    if ts != [] {
      if Compare(t, ts[0]) <= 0 {
        forall j | 0 < j < |ts|
          ensures Compare(t, ts[j]) <= 0
        {
          CompareTransitive(t, ts[0], ts[j]);
        }
        hide IsSorted;
        PutFirst(t, ts);
      } else {
        var r := InsertSorted(t, ts[1..]);
        assert InsertSorted(t, ts) == [ts[0]] + r && ts == [ts[0]] + ts[1..];
        assert IsSorted(ts[1..]);
        hide IsSorted, InsertSorted;
        InsertSorts(t, ts[1..]);
        CompareFlips(t, ts[0]);
        FirstIsLeast(t, ts, r);
        PutFirst(ts[0], r);
        assert multiset([t] + ts) == multiset{t} + multiset{ts[0]} + multiset(ts[1..]);
      }
    }
  }

  lemma {:induction false} SortedSorts(ts: seq<StoredTerm>)
    ensures IsSorted(Sorted(ts)) && multiset(Sorted(ts)) == multiset(ts)
    decreases |ts|
  {
    if ts != [] {
      SortedSorts(ts[1..]);
      InsertSorts(ts[0], Sorted(ts[1..]));
      assert ts == [ts[0]] + ts[1..];
    }
  }

  // ---- Compare is 0 exactly for equal values ----

  /** The value of a term: sets have no order. */
  ghost function ValueOf(t: StoredTerm): Term<nat> {
    match t
    case SVariable(v) => Variable(v)
    case SInteger(i) => Integer(i)
    case SString(s) => Str(s)
    case SDate(d) => Date(d)
    case SBytes(bs) => Bytes(bs)
    case SBool(b) => Bool(b)
    case SSet(es) => Set(set e | e in es :: ValueOf(e))
  }

  ghost function Values(ts: seq<StoredTerm>): set<Term<nat>> {
    set t | t in ts :: ValueOf(t)
  }

  /** No value occurs twice in a set, at any level. */
  ghost predicate Proper(t: StoredTerm) {
    t.SSet? ==>
      && (forall e :: e in t.elems ==> Proper(e))
      && Distinct(t.elems)
  }

  ghost predicate Distinct(ts: seq<StoredTerm>) {
    forall i, j :: 0 <= i < j < |ts| ==> ValueOf(ts[i]) != ValueOf(ts[j])
  }

  ghost predicate AllProper(ts: seq<StoredTerm>) {
    forall t :: t in ts ==> Proper(t)
  }

  /** Two terms without repeated elements compare as 0 exactly when they are the same value: two sets
      exactly when they have the same elements, in whatever order. */
  lemma {:induction false} CompareIsEquality(a: StoredTerm, b: StoredTerm)
    requires Proper(a) && Proper(b)
    ensures Compare(a, b) == 0 <==> ValueOf(a) == ValueOf(b)
    decreases Max(Depth(a), Depth(b)), 0, 0
  {
    if a.SBytes? && b.SBytes? {
      BytesOrder(a.bytes, b.bytes, []);
    } else if a.SSet? && b.SSet? {
      assert ValueOf(a) == Set(Values(a.elems)) && ValueOf(b) == Set(Values(b.elems));
      hide Sorted, ValueOf;
      ComparedIsEquality(a.elems, b.elems);
    }
  }

  lemma {:induction false} ComparedIsEquality(xs: seq<StoredTerm>, ys: seq<StoredTerm>)
    requires AllProper(xs) && AllProper(ys) && Distinct(xs) && Distinct(ys)
    ensures Compared(xs, ys) == 0 <==> Values(xs) == Values(ys)
    decreases Max(DepthAll(xs), DepthAll(ys)), 2, 0
  {
    SortedKeeps(xs);
    SortedKeeps(ys);
    hide ValueOf, Compare, CompareEach, Sorted, Proper, Values, Distinct, AllProper, IsSorted, DepthAll;
    DistinctCount(xs);
    DistinctCount(ys);
    if |xs| == |ys| {
      EachIsEquality(Sorted(xs), Sorted(ys));
      if Values(xs) == Values(ys) {
        SameValuesSameOrder(Sorted(xs), Sorted(ys));
      }
    }
  }

  lemma SortedKeeps(ts: seq<StoredTerm>)
    requires AllProper(ts) && Distinct(ts)
    ensures AllProper(Sorted(ts)) && Distinct(Sorted(ts)) && IsSorted(Sorted(ts))
    ensures Values(Sorted(ts)) == Values(ts)
  {
    SortedSorts(ts);
    hide Sorted, ValueOf, Proper, IsSorted;
    var r := Sorted(ts);
    SameElements(r, ts);
    SameElements(ts, r);
    DistinctCount(ts);
    assert Values(r) == Values(ts);
    CountDistinct(r);
  }

  lemma SameElements(xs: seq<StoredTerm>, ys: seq<StoredTerm>)
    requires multiset(xs) == multiset(ys)
    ensures forall x :: x in xs ==> x in ys
  {
    forall x | x in xs
      ensures x in ys
    {
      assert x in multiset(xs);
    }
  }

  lemma {:induction false} DistinctCount(ts: seq<StoredTerm>)
    requires Distinct(ts)
    ensures |Values(ts)| == |ts|
  {
    hide ValueOf;
    if ts != [] {
      var front, last := ts[..|ts| - 1], ts[|ts| - 1];
      DistinctCount(front);
      assert ts == front + [last];
      assert Values(ts) == Values(front) + {ValueOf(last)};
    }
  }

  /** As many values as elements means no value occurs twice. */
  lemma {:induction false} CountDistinct(ts: seq<StoredTerm>)
    ensures |Values(ts)| <= |ts|
    ensures |Values(ts)| == |ts| ==> Distinct(ts)
  {
    hide ValueOf;
    if ts != [] {
      var front, last := ts[..|ts| - 1], ts[|ts| - 1];
      CountDistinct(front);
      assert ts == front + [last];
      assert Values(ts) == Values(front) + {ValueOf(last)};
      if |Values(ts)| == |ts| {
        assert ValueOf(last) !in Values(front);
        forall i | 0 <= i < |front|
          ensures ValueOf(ts[i]) != ValueOf(last)
        {
          assert ts[i] in front;
        }
      }
    }
  }

  lemma {:induction false} EachIsEquality(xs: seq<StoredTerm>, ys: seq<StoredTerm>)
    requires |xs| == |ys| && AllProper(xs) && AllProper(ys)
    ensures CompareEach(xs, ys) == 0 <==> forall i :: 0 <= i < |xs| ==> ValueOf(xs[i]) == ValueOf(ys[i])
    ensures CompareEach(xs, ys) == 0 ==> Values(xs) == Values(ys)
    decreases Max(DepthAll(xs), DepthAll(ys)), 1, |xs|
  {
    hide Compare, ValueOf, Proper;
    if xs != [] {
      CompareIsEquality(xs[0], ys[0]);
      EachIsEquality(xs[1..], ys[1..]);
      assert xs == [xs[0]] + xs[1..] && ys == [ys[0]] + ys[1..];
      assert Values(xs) == {ValueOf(xs[0])} + Values(xs[1..]);
      assert Values(ys) == {ValueOf(ys[0])} + Values(ys[1..]);
      var us, vs := xs[1..], ys[1..];
      assert (forall i :: 0 <= i < |xs| ==> ValueOf(xs[i]) == ValueOf(ys[i])) <==>
             ValueOf(xs[0]) == ValueOf(ys[0]) && forall i :: 0 <= i < |us| ==> ValueOf(us[i]) == ValueOf(vs[i]) by {
        if ValueOf(xs[0]) == ValueOf(ys[0]) && forall i :: 0 <= i < |us| ==> ValueOf(us[i]) == ValueOf(vs[i]) {
          forall i | 0 <= i < |xs|
            ensures ValueOf(xs[i]) == ValueOf(ys[i])
          {
            if i > 0 {
              assert us[i - 1] == xs[i] && vs[i - 1] == ys[i];
            }
          }
        }
      }
    }
  }

  /** Two sorted lists of the same distinct values agree at every place. */
  lemma SameValuesSameOrder(xs: seq<StoredTerm>, ys: seq<StoredTerm>)
    requires |xs| == |ys| && AllProper(xs) && AllProper(ys)
    requires Distinct(xs) && Distinct(ys) && IsSorted(xs) && IsSorted(ys)
    requires Values(xs) == Values(ys)
    ensures forall i :: 0 <= i < |xs| ==> ValueOf(xs[i]) == ValueOf(ys[i])
    decreases Max(DepthAll(xs), DepthAll(ys)), 1, |xs|
  {
    hide Compare, ValueOf, Proper;
    var n := 0;
    while n < |xs|
      invariant n <= |xs|
      invariant forall i :: 0 <= i < n ==> ValueOf(xs[i]) == ValueOf(ys[i])
    {
      NotAbove(xs, ys, n);
      NotAbove(ys, xs, n);
      CompareFlips(xs[n], ys[n]);
      CompareIsEquality(xs[n], ys[n]);
      n := n + 1;
    }
  }

  /** When all places before n agree, what is at n in one list is at n or later in the other. */
  lemma NotAbove(xs: seq<StoredTerm>, ys: seq<StoredTerm>, n: nat)
    requires n < |xs| == |ys| && AllProper(xs) && AllProper(ys)
    requires Distinct(xs) && IsSorted(ys) && Values(xs) == Values(ys)
    requires forall i :: 0 <= i < n ==> ValueOf(xs[i]) == ValueOf(ys[i])
    ensures Compare(ys[n], xs[n]) <= 0
    decreases Max(DepthAll(xs), DepthAll(ys)), 0, |xs|
  {
    hide Compare, ValueOf, Proper;
    assert xs[n] in xs;
    assert ValueOf(xs[n]) in Values(ys);
    var y :| y in ys && ValueOf(y) == ValueOf(xs[n]);
    var j :| 0 <= j < |ys| && ys[j] == y;
    assert j >= n;
    CompareIsEquality(ys[j], xs[n]);
    if j > n {
      CompareTransitive(ys[n], ys[j], xs[n]);
    }
  }

  /** Sorting is canonical: the order in which a set yields its elements does not show. */
  lemma SortedIsCanonical(xs: seq<StoredTerm>, ys: seq<StoredTerm>)
    requires AllProper(xs) && AllProper(ys) && Distinct(xs) && Distinct(ys) && Values(xs) == Values(ys)
    ensures |xs| == |ys| && forall i :: 0 <= i < |xs| ==> ValueOf(Sorted(xs)[i]) == ValueOf(Sorted(ys)[i])
  {
    SortedKeeps(xs);
    SortedKeeps(ys);
    DistinctCount(xs);
    DistinctCount(ys);
    hide Sorted, ValueOf, Proper;
    SameValuesSameOrder(Sorted(xs), Sorted(ys));
  }

  /** Slices compare as equal exactly when the second is not nil and they hold the same values:
      a nil slice does not even equal itself. */
  lemma SlicesEqual(a: Slice, b: Slice)
    requires AllProper(Items(a)) && AllProper(Items(b))
    ensures ComparedSlices(a, b) == 0 <==>
              && !b.Nil? && |Items(a)| == |Items(b)|
              && forall i :: 0 <= i < |Items(a)| ==> ValueOf(Items(a)[i]) == ValueOf(Items(b)[i])
  {
    hide ValueOf, Proper, CompareEach;
    if !b.Nil? && |Items(a)| == |b.ts| {
      EachIsEquality(Items(a), b.ts);
    }
  }

  // ---- Which way round the order goes ----

  /** Variables come before integers, then strings, dates, byte strings, truth values and sets; numbers and ids
      ascend, false comes before true, and smaller sets before larger ones. */
  lemma CompareAscends(a: StoredTerm, b: StoredTerm)
    ensures a.SVariable? && !b.SVariable? ==> Compare(a, b) < 0
    ensures a.SInteger? && !b.SVariable? && !b.SInteger? ==> Compare(a, b) < 0
    ensures a.SString? && (b.SDate? || b.SBytes? || b.SBool? || b.SSet?) ==> Compare(a, b) < 0
    ensures a.SDate? && (b.SBytes? || b.SBool? || b.SSet?) ==> Compare(a, b) < 0
    ensures a.SBytes? && (b.SBool? || b.SSet?) ==> Compare(a, b) < 0
    ensures a.SBool? && b.SSet? ==> Compare(a, b) < 0
    ensures a.SVariable? && b.SVariable? ==> (Compare(a, b) < 0 <==> a.v < b.v)
    ensures a.SInteger? && b.SInteger? ==> (Compare(a, b) < 0 <==> a.i < b.i)
    ensures a.SString? && b.SString? ==> (Compare(a, b) < 0 <==> a.s < b.s)
    ensures a.SDate? && b.SDate? ==> (Compare(a, b) < 0 <==> a.d < b.d)
    ensures a.SBytes? && b.SBytes? ==> (Compare(a, b) < 0 <==> BytesBefore(a.bytes, b.bytes))
    ensures a.SBool? && b.SBool? ==> (Compare(a, b) < 0 <==> a == SBool(false) && b == SBool(true))
    ensures a.SSet? && b.SSet? && |a.elems| < |b.elems| ==> Compare(a, b) < 0
  {
    if a.SBytes? && b.SBytes? {
      BytesAscend(a.bytes, b.bytes);
    }
  }

  /** A proper beginning of the other, or less where they first differ. */
  ghost predicate BytesBefore(a: seq<bv8>, b: seq<bv8>) {
    a < b || exists k :: 0 <= k < |a| && k < |b| && a[..k] == b[..k] && a[k] < b[k]
  }

  lemma {:induction false} BytesAscend(a: seq<bv8>, b: seq<bv8>)
    ensures CompareBytes(a, b) < 0 <==> BytesBefore(a, b)
  {
    if a != [] && b != [] {
      if a[0] == b[0] {
        BytesAscend(a[1..], b[1..]);
        BeforeInTail(a[0], a[1..], b[1..]);
        assert a == [a[0]] + a[1..] && b == [b[0]] + b[1..];
      } else {
        assert a[..0] == b[..0];
        forall k | 0 < k <= |a| && k <= |b|
          ensures a[..k] != b[..k]
        {
          assert a[..k][0] == a[0] && b[..k][0] == b[0];
        }
        assert |a| <= |b| ==> b[..|a|][0] == b[0];
      }
    }
  }

  lemma BeforeInTail(x: bv8, p: seq<bv8>, q: seq<bv8>)
    ensures BytesBefore([x] + p, [x] + q) <==> BytesBefore(p, q)
  {
    var a, b := [x] + p, [x] + q;
    assert a < b <==> p < q by {
      assert p == a[1..] && q == b[1..];
      assert p < q ==> b == a + q[|p|..];
      assert a < b ==> q == p + b[|a|..];
    }
    forall k: nat | k < |p| && k < |q|
      ensures p[..k] == q[..k] && p[k] < q[k] <==> a[..k + 1] == b[..k + 1] && a[k + 1] < b[k + 1]
    {
      assert a[..k + 1] == [x] + p[..k] && b[..k + 1] == [x] + q[..k];
      assert p[..k] == a[..k + 1][1..] && q[..k] == b[..k + 1][1..];
    }
    if k :| 0 <= k < |a| && k < |b| && a[..k] == b[..k] && a[k] < b[k] {
      assert p[..k - 1] == q[..k - 1] && p[k - 1] < q[k - 1] <==> a[..k] == b[..k] && a[k] < b[k] by {
        assert k - 1 + 1 == k;
      }
    }
    if k :| 0 <= k < |p| && k < |q| && p[..k] == q[..k] && p[k] < q[k] {
      assert a[..k + 1] == b[..k + 1] && a[k + 1] < b[k + 1];
    }
  }
}
