/** The odometer of datalog/evaluator.go: it walks over index tuples, one fact
    index per predicate, and can jump over every tuple that repeats a prefix
    known to fail. */
module Odometer {
  import opened Wrappers

  /** A tuple of digits below `radix`. */
  predicate IsTuple(t: seq<nat>, radix: nat) {
    forall i :: 0 <= i < |t| ==> t[i] < radix
  }

  /** The mixed-radix value of the first n digits. */
  function PrefixRank(t: seq<nat>, radix: nat, n: nat): nat
    requires n <= |t|
  {
    if n == 0 then 0 else PrefixRank(t, radix, n - 1) * radix + t[n - 1]
  }

  function Rank(t: seq<nat>, radix: nat): nat {
    PrefixRank(t, radix, |t|)
  }

  function Power(radix: nat, n: nat): nat {
    if n == 0 then 1 else Power(radix, n - 1) * radix
  }

  /** u comes before w in lexicographic order. */
  ghost predicate LexLess(u: seq<nat>, w: seq<nat>)
    requires |u| == |w|
  {
    exists k :: 0 <= k < |u| && u[..k] == w[..k] && u[k] < w[k]
  }

  /** The first tuple after every tuple that starts with t[..n], if there is one:
      the last of the n digits that can grow does, and the digits after it restart. */
  function Advance(t: seq<nat>, radix: nat, n: nat): (r: Option<seq<nat>>)
    requires n <= |t|
    requires IsTuple(t, radix)
    ensures r.Some? ==> |r.value| == |t| && IsTuple(r.value, radix)
  {
    if n == 0 then None
    else if t[n - 1] + 1 < radix then
      Some(t[..n - 1] + [t[n - 1] + 1] + seq(|t| - n, _ => 0))
    else Advance(t, radix, n - 1)
  }

  lemma MulStep(a: nat, b: nat, radix: nat, d: nat, e: nat)
    requires a < b && d < radix
    ensures a * radix + d < b * radix + e
  {
    assert (a + 1) * radix <= b * radix;
  }

  lemma MulOrder(a: nat, b: nat, radix: nat)
    requires a <= b
    ensures a * radix <= b * radix
  {
  }

  lemma MulAddOne(a: nat, radix: nat)
    ensures (a + 1) * radix == a * radix + radix
  {
  }

  lemma {:induction false} PrefixRankBound(t: seq<nat>, radix: nat, n: nat)
    requires n <= |t| && IsTuple(t, radix)
    ensures PrefixRank(t, radix, n) < Power(radix, n)
  {
    if n > 0 {
      PrefixRankBound(t, radix, n - 1);
      MulStep(PrefixRank(t, radix, n - 1), Power(radix, n - 1), radix, t[n - 1], 0);
    }
  }

  /** Larger values have larger or equal prefixes. */
  lemma {:induction false} PrefixMonotone(u: seq<nat>, w: seq<nat>, radix: nat, n: nat, m: nat)
    requires n <= m <= |u| == |w|
    requires IsTuple(u, radix) && IsTuple(w, radix)
    requires PrefixRank(u, radix, m) <= PrefixRank(w, radix, m)
    ensures PrefixRank(u, radix, n) <= PrefixRank(w, radix, n)
    decreases m
  {
    if n < m {
      if PrefixRank(w, radix, m - 1) < PrefixRank(u, radix, m - 1) {
        MulStep(PrefixRank(w, radix, m - 1), PrefixRank(u, radix, m - 1), radix, w[m - 1], u[m - 1]);
      }
      PrefixMonotone(u, w, radix, n, m - 1);
    }
  }

  /** Below a tuple that ends in zeros, the prefix before the zeros is strictly smaller. */
  lemma {:induction false} PrefixStrict(u: seq<nat>, w: seq<nat>, radix: nat, n: nat, m: nat)
    requires n <= m <= |u| == |w|
    requires IsTuple(u, radix) && IsTuple(w, radix)
    requires forall i :: n <= i < m ==> w[i] == 0
    requires PrefixRank(u, radix, m) < PrefixRank(w, radix, m)
    ensures PrefixRank(u, radix, n) < PrefixRank(w, radix, n)
    decreases m
  {
    if n < m {
      var a, b := PrefixRank(u, radix, m - 1), PrefixRank(w, radix, m - 1);
      if b <= a {
        MulOrder(b, a, radix);
        assert false;
      }
      PrefixStrict(u, w, radix, n, m - 1);
    }
  }

  /** Distinct prefixes have distinct values. */
  lemma {:induction false} PrefixInjective(u: seq<nat>, w: seq<nat>, radix: nat, n: nat)
    requires n <= |u| == |w|
    requires IsTuple(u, radix) && IsTuple(w, radix)
    requires PrefixRank(u, radix, n) == PrefixRank(w, radix, n)
    ensures u[..n] == w[..n]
  {
    if n > 0 {
      PrefixMonotone(u, w, radix, n - 1, n);
      PrefixMonotone(w, u, radix, n - 1, n);
      PrefixInjective(u, w, radix, n - 1);
      assert u[..n] == u[..n - 1] + [u[n - 1]];
      assert w[..n] == w[..n - 1] + [w[n - 1]];
    }
  }

  lemma {:induction false} PrefixAgree(u: seq<nat>, w: seq<nat>, radix: nat, n: nat)
    requires n <= |u| == |w| && u[..n] == w[..n]
    ensures PrefixRank(u, radix, n) == PrefixRank(w, radix, n)
  {
    if n > 0 {
      assert u[..n - 1] == u[..n][..n - 1] && w[..n - 1] == w[..n][..n - 1];
      assert u[n - 1] == u[..n][n - 1] && w[n - 1] == w[..n][n - 1];
      PrefixAgree(u, w, radix, n - 1);
    }
  }

  /** The rank orders tuples exactly lexicographically. */
  lemma {:induction false} RankIsLexicographic(u: seq<nat>, w: seq<nat>, radix: nat)
    requires |u| == |w| && IsTuple(u, radix) && IsTuple(w, radix)
    ensures Rank(u, radix) < Rank(w, radix) <==> LexLess(u, w)
  {
    if LexLess(u, w) {
      var k :| 0 <= k < |u| && u[..k] == w[..k] && u[k] < w[k];
      PrefixAgree(u, w, radix, k);
      if Rank(w, radix) <= Rank(u, radix) {
        PrefixMonotone(w, u, radix, k + 1, |u|);
        assert false;
      }
    }
    if Rank(u, radix) < Rank(w, radix) {
      var k := FirstDifference(u, w, radix);
      if w[k] < u[k] {
        PrefixAgree(u, w, radix, k);
        PrefixMonotone(u, w, radix, k + 1, |u|);
        assert false;
      }
    }
  }

  lemma FirstDifference(u: seq<nat>, w: seq<nat>, radix: nat) returns (k: nat)
    requires |u| == |w| && Rank(u, radix) != Rank(w, radix)
    ensures k < |u| && u[..k] == w[..k] && u[k] != w[k]
  {
    k := 0;
    while k < |u| && u[k] == w[k]
      invariant k <= |u| && u[..k] == w[..k]
    {
      k := k + 1;
    }
    if k == |u| {
      PrefixAgree(u, w, radix, k);
      assert false;
    }
  }

  /** Advancing changes one digit k among the first n and restarts those after it. */
  lemma {:induction false} AdvanceShape(t: seq<nat>, radix: nat, n: nat) returns (k: nat)
    requires n <= |t| && IsTuple(t, radix)
    requires Advance(t, radix, n).Some?
    ensures k < n
    ensures var w := Advance(t, radix, n).value;
            && w[..k] == t[..k] && w[k] == t[k] + 1
            && (forall i :: k < i < n ==> t[i] + 1 == radix)
            && (forall i :: k < i < |t| ==> w[i] == 0)
  {
    k := n - 1;
    if t[n - 1] + 1 >= radix {
      k := AdvanceShape(t, radix, n - 1);
    }
  }

  /** Carrying through full digits adds one in the value. */
  lemma {:induction false} CarryAddsOne(t: seq<nat>, w: seq<nat>, radix: nat, k: nat, m: nat)
    requires k < m <= |t| == |w|
    requires t[..k] == w[..k] && w[k] == t[k] + 1
    requires forall i :: k < i < m ==> t[i] + 1 == radix && w[i] == 0
    ensures PrefixRank(w, radix, m) == PrefixRank(t, radix, m) + 1
  {
    if m == k + 1 {
      PrefixAgree(t, w, radix, k);
    } else {
      CarryAddsOne(t, w, radix, k, m - 1);
      MulAddOne(PrefixRank(t, radix, m - 1), radix);
    }
  }

  /** Advancing the first n digits adds one to their value and restarts the rest. */
  lemma AdvanceAddsOne(t: seq<nat>, radix: nat, n: nat)
    requires n <= |t| && IsTuple(t, radix)
    requires Advance(t, radix, n).Some?
    ensures var w := Advance(t, radix, n).value;
            PrefixRank(w, radix, n) == PrefixRank(t, radix, n) + 1
            && forall i :: n <= i < |t| ==> w[i] == 0
  {
    var k := AdvanceShape(t, radix, n);
    CarryAddsOne(t, Advance(t, radix, n).value, radix, k, n);
  }

  lemma {:induction false} StuckIsLast(t: seq<nat>, radix: nat, n: nat)
    requires n <= |t| && IsTuple(t, radix)
    requires Advance(t, radix, n).None?
    ensures PrefixRank(t, radix, n) + 1 == Power(radix, n)
  {
    if n > 0 {
      StuckIsLast(t, radix, n - 1);
      MulAddOne(PrefixRank(t, radix, n - 1), radix);
    }
  }

  /** There is no tuple to advance to exactly when the first n digits have their largest value. */
  lemma NoAdvanceIsLast(t: seq<nat>, radix: nat, n: nat)
    requires n <= |t| && IsTuple(t, radix)
    ensures Advance(t, radix, n).None? <==> PrefixRank(t, radix, n) + 1 == Power(radix, n)
  {
    if Advance(t, radix, n).None? {
      StuckIsLast(t, radix, n);
    } else {
      AdvanceAddsOne(t, radix, n);
      PrefixRankBound(Advance(t, radix, n).value, radix, n);
    }
  }

  /** The tuples from t up to the advanced tuple are exactly the remaining ones
      that share t's first n digits: pruning at a failed position loses nothing else. */
  lemma AdvanceSkipsPrefix(t: seq<nat>, radix: nat, n: nat, u: seq<nat>)
    requires n <= |t| == |u|
    requires IsTuple(t, radix) && IsTuple(u, radix)
    requires Rank(t, radix) <= Rank(u, radix)
    ensures u[..n] == t[..n] <==>
            (Advance(t, radix, n).None? || Rank(u, radix) < Rank(Advance(t, radix, n).value, radix))
  {
    PrefixMonotone(t, u, radix, n, |t|);
    match Advance(t, radix, n)
    case None =>
      NoAdvanceIsLast(t, radix, n);
      PrefixRankBound(u, radix, n);
      PrefixInjective(u, t, radix, n);
    case Some(w) =>
      AdvanceAddsOne(t, radix, n);
      if Rank(u, radix) < Rank(w, radix) {
        PrefixStrict(u, w, radix, n, |t|);
        PrefixInjective(u, t, radix, n);
      }
      if u[..n] == t[..n] && Rank(w, radix) <= Rank(u, radix) {
        PrefixMonotone(w, u, radix, n, |t|);
        PrefixAgree(u, t, radix, n);
        assert false;
      }
  }

  lemma OthersRankApart(t: seq<nat>, radix: nat, n: nat)
    requires n <= |t| && IsTuple(t, radix)
    ensures forall u :: |u| == |t| && IsTuple(u, radix) && u[..n] != t[..n] ==> Rank(u, radix) != Rank(t, radix)
  {
    forall u | |u| == |t| && IsTuple(u, radix) && Rank(u, radix) == Rank(t, radix)
      ensures u[..n] == t[..n]
    {
      PrefixInjective(u, t, radix, |t|);
      assert u == u[..|t|] == t[..|t|] == t;
    }
  }

  lemma AdvanceGrows(t: seq<nat>, radix: nat, n: nat)
    requires n <= |t| && IsTuple(t, radix)
    requires Advance(t, radix, n).Some?
    ensures Rank(t, radix) < Rank(Advance(t, radix, n).value, radix)
  {
    AdvanceSkipsPrefix(t, radix, n, t);
  }

  lemma {:induction false} ZerosRankZero(t: seq<nat>, radix: nat, n: nat)
    requires n <= |t| && forall i :: 0 <= i < n ==> t[i] == 0
    ensures PrefixRank(t, radix, n) == 0
  {
    if n > 0 {
      ZerosRankZero(t, radix, n - 1);
    }
  }

  /** The iterator over index tuples. `Next` plays the part of one loop turn of the
      source's iterator function, and the consumer may call `FailedAtIndex` between turns. */
  class Combinations {
    const predicateCount: nat
    const factCount: nat
    const indexes: array<nat>
    var started: bool
    var done: bool
    var failed: bool

    ghost predicate Valid()
      reads this, indexes
    {
      && (!started ==> forall i :: 0 <= i < indexes.Length ==> indexes[i] == 0)
      && indexes.Length == predicateCount
      && (factCount > 0 ==> IsTuple(indexes[..], factCount))
      && (done || failed ==> started && predicateCount > 0 && factCount > 0)
    }

    /** t is still to be visited. */
    ghost predicate Ahead(t: seq<nat>)
      reads this, indexes
    {
      && |t| == predicateCount
      && IsTuple(t, factCount)
      && !done
      && (started ==>
            predicateCount > 0
            && if failed then Rank(indexes[..], factCount) <= Rank(t, factCount)
               else Rank(indexes[..], factCount) < Rank(t, factCount))
    }

    /** Bounds the number of turns left. */
    ghost function Left(): nat
      reads this, indexes
      requires Valid()
    {
      if done then 0
      else if predicateCount == 0 || factCount == 0 then if started then 0 else 1
      else
        PrefixRankBound(indexes[..], factCount, predicateCount);
        2 * (Power(factCount, predicateCount) - Rank(indexes[..], factCount))
        + if failed || !started then 1 else 0
    }

    constructor (predicateCount: nat, factCount: nat)
      ensures Valid() && fresh(indexes) && !failed && !started && !done
      ensures this.predicateCount == predicateCount && this.factCount == factCount
      ensures forall t :: Ahead(t) <==> |t| == predicateCount && IsTuple(t, factCount)
    {
      this.predicateCount := predicateCount;
      this.factCount := factCount;
      this.indexes := new nat[predicateCount](_ => 0);
      this.started, this.done, this.failed := false, false, false;
    }

    /** newIncrement: move to the next tuple, or note that there is none. */
    method Increment()
      requires Valid() && predicateCount > 0 && factCount > 0 && started && !done
      modifies this`done, indexes
      ensures Valid()
      ensures var next := Advance(old(indexes[..]), factCount, predicateCount);
              done == next.None? && (next.Some? ==> indexes[..] == next.value)
    {
      ghost var t := indexes[..];
      var position: int := predicateCount - 1;
      while position >= 0
        invariant -1 <= position < predicateCount
        invariant started && !done && failed == old(failed)
        invariant indexes[..position + 1] == t[..position + 1]
        invariant forall i :: position < i < predicateCount ==> indexes[i] == 0
        invariant Advance(t, factCount, predicateCount) == Advance(t, factCount, position + 1)
      {
        assert indexes[position] == indexes[..position + 1][position] == t[position];
        if indexes[position] < factCount - 1 {
          indexes[position] := indexes[position] + 1;
          assert indexes[..] == t[..position] + [t[position] + 1] + seq(predicateCount - position - 1, _ => 0);
          return;
        } else {
          indexes[position] := 0;
          position := position - 1;
        }
      }
      done := true;
    }

    /** The loop of newIncrementAt: carries from a position on, and zeroes all that is after the place
        where the carry ends. */
    method CarryFrom(failedAt: nat)
      requires Valid() && started && failedAt < predicateCount && factCount > 0
      modifies this`done, indexes
      ensures Valid() && (old(done) ==> done)
      ensures var next := Advance(old(indexes[..]), factCount, failedAt + 1);
              if next.Some? then done == old(done) && indexes[..] == next.value else done
    {
      hide Rank, PrefixRank, Power;
      ghost var t := indexes[..];
      var position: int := failedAt;
      while position >= 0
        invariant -1 <= position <= failedAt && done == old(done)
        invariant indexes[..position + 1] == t[..position + 1]
        invariant IsTuple(indexes[..], factCount)
        invariant Advance(t, factCount, failedAt + 1) == Advance(t, factCount, position + 1)
      {
        assert indexes[position] == indexes[..position + 1][position] == t[position];
        if indexes[position] < factCount - 1 {
          indexes[position] := indexes[position] + 1;
          for p2 := position + 1 to predicateCount
            invariant done == old(done)
            invariant indexes[..position] == t[..position] && indexes[position] == t[position] + 1
            invariant forall i :: position < i < p2 ==> indexes[i] == 0
          {
            indexes[p2] := 0;
          }
          assert indexes[..] == t[..position] + [t[position] + 1] + seq(predicateCount - position - 1, _ => 0);
          return;
        } else {
          indexes[position] := 0;
          position := position - 1;
        }
      }
      done := true;
    }

    /** newIncrementAt: leave every tuple that agrees with the current one up to `failedAt`. It may be
        called again in the same turn, with what the earlier call moved to as the current tuple. */
    method FailedAtIndex(failedAt: int)
      requires Valid() && started
      modifies this`done, this`failed, indexes
      ensures Valid() && started
      ensures failedAt < 0 || failedAt >= predicateCount || factCount == 0 ==>
                done == old(done) && failed == old(failed) && indexes[..] == old(indexes[..])
      ensures 0 <= failedAt < predicateCount && factCount > 0 ==>
                failed && (old(done) ==> done) && (!old(done) ==> Left() < old(Left()))
                && forall t :: Ahead(t) <==> old(Ahead(t)) && t[..failedAt + 1] != old(indexes[..])[..failedAt + 1]
    {
      if failedAt < 0 || failedAt >= predicateCount || factCount == 0 {
        return;
      }
      ghost var t, n := indexes[..], failedAt + 1;
      PrefixRankBound(t, factCount, predicateCount);
      OthersRankApart(t, factCount, n);
      hide Rank, Power, Advance;
      failed := true;
      CarryFrom(failedAt);
      if !old(done) {
        PrefixRankBound(indexes[..], factCount, predicateCount);
        AheadAfterSkip(t, n);
      }
    }

    /** What a skip leaves ahead, given what it did to the fields. */
    lemma AheadAfterSkip(t: seq<nat>, n: nat)
      requires Valid() && started && failed
      requires 0 < n <= |t| == predicateCount && factCount > 0 && IsTuple(t, factCount)
      requires done == Advance(t, factCount, n).None?
      requires !done ==> indexes[..] == Advance(t, factCount, n).value
      ensures forall u :: Ahead(u) <==>
                |u| == predicateCount && IsTuple(u, factCount)
                && Rank(t, factCount) < Rank(u, factCount) && u[..n] != t[..n]
      ensures !done ==> Rank(t, factCount) < Rank(indexes[..], factCount)
    {
      if !done {
        AdvanceGrows(t, factCount, n);
      }
      forall u | |u| == predicateCount && IsTuple(u, factCount)
        ensures Ahead(u) <==> Rank(t, factCount) < Rank(u, factCount) && u[..n] != t[..n]
      {
        if Rank(t, factCount) <= Rank(u, factCount) {
          AdvanceSkipsPrefix(t, factCount, n, u);
          if Rank(t, factCount) == Rank(u, factCount) {
            PrefixInjective(u, t, factCount, |t|);
            assert u == u[..|t|] == t[..|t|] == t;
          }
        }
      }
    }

    lemma OnlyCurrentHasRank()
      requires Valid() && factCount > 0
      ensures forall u :: |u| == predicateCount && IsTuple(u, factCount) ==>
                Rank(u, factCount) < Power(factCount, predicateCount)
                && (Rank(u, factCount) == Rank(indexes[..], factCount) ==> u == indexes[..])
      ensures Rank(indexes[..], factCount) < Power(factCount, predicateCount)
    {
      PrefixRankBound(indexes[..], factCount, predicateCount);
      forall u | |u| == predicateCount && IsTuple(u, factCount)
        ensures Rank(u, factCount) < Power(factCount, predicateCount)
        ensures Rank(u, factCount) == Rank(indexes[..], factCount) ==> u == indexes[..]
      {
        PrefixRankBound(u, factCount, predicateCount);
        if Rank(u, factCount) == Rank(indexes[..], factCount) {
          PrefixInjective(u, indexes[..], factCount, predicateCount);
          assert u == u[..predicateCount];
        }
      }
    }

    /** A turn when there are tuples: only a turn that follows neither the start nor
        a skip has to increment. */
    method Turn()
      requires Valid() && predicateCount > 0 && factCount > 0
      modifies this, indexes
      ensures Valid() && started && (!done ==> !failed)
      ensures old(done) ==> done
      ensures !done ==>
                Rank(indexes[..], factCount)
                == old(Rank(indexes[..], factCount) + if failed || !started then 0 else 1)
      ensures done && !old(done) ==>
                !old(failed) && old(started)
                && old(Rank(indexes[..], factCount)) + 1 == Power(factCount, predicateCount)
    {
      if !started {
        started, failed := true, false;
        return;
      }
      if !done {
        if failed {
          failed := false;
        } else {
          ghost var t := indexes[..];
          Increment();
          if !done {
            AdvanceAddsOne(t, factCount, predicateCount);
          } else {
            NoAdvanceIsLast(t, factCount, predicateCount);
          }
        }
      }
    }

    /** One turn of the iterator: yields the first tuple still ahead, if there is one. */
    method Next() returns (more: bool)
      requires Valid()
      modifies this, indexes
      ensures Valid() && started
      ensures more ==>
                && !done && !failed
                && var current := indexes[..];
                && old(Ahead(current))
                && (forall t :: Ahead(t) <==> old(Ahead(t)) && t != current)
                && (forall t :: Ahead(t) ==> Rank(current, factCount) < Rank(t, factCount))
      ensures more ==> Left() < old(Left())
      ensures !more ==> forall t :: !old(Ahead(t)) && !Ahead(t)
    {
      if predicateCount == 0 {
        more := !started;
        started, failed := true, false;
        return;
      }
      if factCount == 0 {
        started, failed := true, false;
        assert forall u: seq<nat> :: |u| == predicateCount ==> u[0] >= factCount;
        return false;
      }
      if !started {
        ZerosRankZero(indexes[..], factCount, predicateCount);
      }
      PrefixRankBound(indexes[..], factCount, predicateCount);
      Turn();
      more := !done;
      OnlyCurrentHasRank();
    }
  }
}
