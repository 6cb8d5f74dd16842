/** Iterating a step on finite sets up to a fixpoint or a limit, whatever the step is. */
module Iteration {
  type Step<!T> = set<T> -> set<T>
  type Failing<!T> = set<T> -> bool

  datatype Outcome = Done | TooManyFacts | TooManyIterations | RuleError

  function Iterate<T>(step: Step<T>, s: set<T>, n: nat): set<T>
    decreases n
  {
    if n == 0 then s else step(Iterate(step, s, n - 1))
  }

  /** The outcome of at most n more steps, and the set it leaves. */
  function RunFrom<T>(step: Step<T>, errs: Failing<T>, s: set<T>, limit: nat, n: nat): (Outcome, set<T>)
    decreases n
  {
    if n == 0 then (TooManyIterations, s)
    else if errs(s) then (RuleError, s)
    else if |step(s)| >= limit then (TooManyFacts, step(s))
    else if |step(s)| == |s| then (Done, step(s))
    else RunFrom(step, errs, step(s), limit, n - 1)
  }

  lemma RunUnfolds<T>(step: Step<T>, errs: Failing<T>, s: set<T>, limit: nat, n: nat)
    requires n > 0
    ensures RunFrom(step, errs, s, limit, n)
            == if errs(s) then (RuleError, s)
               else if |step(s)| >= limit then (TooManyFacts, step(s))
               else if |step(s)| == |s| then (Done, step(s))
               else RunFrom(step, errs, step(s), limit, n - 1)
  {
  }

  lemma NoRunLeft<T>(step: Step<T>, errs: Failing<T>, s: set<T>, limit: nat)
    ensures RunFrom(step, errs, s, limit, 0) == (TooManyIterations, s)
  {
  }

  /** The step only adds elements. */
  ghost predicate Inflating<T(!new)>(step: Step<T>) {
    forall s :: s <= step(s)
  }

  /** The steps from s stabilise at step k, within the limit and with no error on the way. */
  ghost predicate StabilisesAt<T>(step: Step<T>, errs: Failing<T>, s: set<T>, limit: nat, k: nat) {
    && Iterate(step, s, k + 1) == Iterate(step, s, k)
    && |Iterate(step, s, k)| < limit
    && forall i :: 0 <= i <= k ==> !errs(Iterate(step, s, i))
  }

  lemma SubsetCount<T>(a: set<T>, b: set<T>)
    requires a <= b
    ensures |a| <= |b| && (|a| == |b| ==> a == b)
  {
    assert b == a + (b - a);
    if |a| == |b| {
      assert |b - a| == 0;
    }
  }

  lemma {:induction false} IterateGrows<T(!new)>(step: Step<T>, s: set<T>, m: nat, n: nat)
    requires Inflating(step) && m <= n
    ensures Iterate(step, s, m) <= Iterate(step, s, n)
    decreases n
  {
    if m < n {
      IterateGrows(step, s, m, n - 1);
    }
  }

  lemma {:induction false} IterateStays<T>(step: Step<T>, s: set<T>, m: nat, n: nat)
    requires m <= n && step(Iterate(step, s, m)) == Iterate(step, s, m)
    ensures Iterate(step, s, n) == Iterate(step, s, m)
    decreases n
  {
    if m < n {
      IterateStays(step, s, m, n - 1);
    }
  }

  lemma {:induction false} IterateShift<T>(step: Step<T>, s: set<T>, n: nat)
    ensures Iterate(step, step(s), n) == Iterate(step, s, n + 1)
    decreases n
  {
    if n > 0 {
      IterateShift(step, s, n - 1);
    }
  }

  lemma StabilisesLater<T>(step: Step<T>, errs: Failing<T>, s: set<T>, limit: nat, k: nat)
    requires !errs(s)
    ensures StabilisesAt(step, errs, step(s), limit, k) <==> StabilisesAt(step, errs, s, limit, k + 1)
  {
    forall i: nat
      ensures Iterate(step, step(s), i) == Iterate(step, s, i + 1)
    {
      IterateShift(step, s, i);
    }
    if StabilisesAt(step, errs, step(s), limit, k) {
      forall i | 0 <= i <= k + 1
        ensures !errs(Iterate(step, s, i))
      {
        assert i > 0 ==> !errs(Iterate(step, step(s), i - 1));
      }
    }
    if StabilisesAt(step, errs, s, limit, k + 1) {
      forall i | 0 <= i <= k
        ensures !errs(Iterate(step, step(s), i))
      {
        assert !errs(Iterate(step, s, i + 1));
      }
    }
  }

  /** What each way a run can end says about the set it leaves. */
  lemma {:induction false} RunIsIterate<T(!new)>(step: Step<T>, errs: Failing<T>, s: set<T>, limit: nat,
                                                 n: nat) returns (k: nat)
    requires Inflating(step)
    ensures k <= n && RunFrom(step, errs, s, limit, n).1 == Iterate(step, s, k)
    ensures match RunFrom(step, errs, s, limit, n).0
            case Done => k > 0 && StabilisesAt(step, errs, s, limit, k - 1)
            case TooManyFacts => |Iterate(step, s, k)| >= limit
            case TooManyIterations => k == n
            case RuleError => errs(Iterate(step, s, k))
    decreases n
  {
    k := 0;
    if n > 0 && !errs(s) {
      SubsetCount(s, step(s));
      assert step(s) == Iterate(step, s, 1);
      k := 1;
      if |step(s)| < limit && |step(s)| != |s| {
        var j := RunIsIterate(step, errs, step(s), limit, n - 1);
        k := j + 1;
        IterateShift(step, s, j);
        if j > 0 {
          StabilisesLater(step, errs, s, limit, j - 1);
        }
      }
    }
  }

  /** Stabilising within the limits makes the run succeed. */
  lemma {:induction false} StabilisingRuns<T(!new)>(step: Step<T>, errs: Failing<T>, s: set<T>, limit: nat, n: nat,
                                                    k: nat)
    requires Inflating(step)
    requires k < n && StabilisesAt(step, errs, s, limit, k)
    ensures RunFrom(step, errs, s, limit, n) == (Done, Iterate(step, s, k))
    decreases k
  {
    assert s == Iterate(step, s, 0) && step(s) == Iterate(step, s, 1);
    assert !errs(Iterate(step, s, 0));
    SubsetCount(s, step(s));
    IterateGrows(step, s, 1, k + 1);
    SubsetCount(step(s), Iterate(step, s, k));
    if step(s) == s {
      IterateStays(step, s, 0, k);
    } else if k > 0 {
      StabilisesLater(step, errs, s, limit, k - 1);
      StabilisingRuns(step, errs, step(s), limit, n - 1, k - 1);
      IterateShift(step, s, k - 1);
    }
  }

  /** The run succeeds exactly when the steps stabilise within the limits. */
  lemma RunSucceedsIff<T(!new)>(step: Step<T>, errs: Failing<T>, s: set<T>, limit: nat, n: nat)
    requires Inflating(step)
    ensures RunFrom(step, errs, s, limit, n).0.Done?
            <==> exists k :: 0 <= k < n && StabilisesAt(step, errs, s, limit, k)
  {
    if RunFrom(step, errs, s, limit, n).0.Done? {
      var k := RunIsIterate(step, errs, s, limit, n);
    }
    if k :| 0 <= k < n && StabilisesAt(step, errs, s, limit, k) {
      StabilisingRuns(step, errs, s, limit, n, k);
    }
  }

  /** Larger sets step to larger sets. */
  ghost predicate Monotone<T(!new)>(step: Step<T>) {
    forall a, b :: a <= b ==> step(a) <= step(b)
  }

  lemma {:induction false} IterateWithinFixpoint<T(!new)>(step: Step<T>, s: set<T>, n: nat, fixpoint: set<T>)
    requires Monotone(step) && s <= fixpoint && step(fixpoint) == fixpoint
    ensures Iterate(step, s, n) <= fixpoint
    decreases n
  {
    if n > 0 {
      IterateWithinFixpoint(step, s, n - 1, fixpoint);
    }
  }

  /** A successful run leaves the least fixpoint around the start, and running again
      changes nothing. */
  lemma RunIsLeastFixpoint<T(!new)>(step: Step<T>, errs: Failing<T>, s: set<T>, limit: nat, n: nat)
    requires Inflating(step) && Monotone(step)
    requires RunFrom(step, errs, s, limit, n).0.Done?
    ensures var left := RunFrom(step, errs, s, limit, n).1;
            && s <= left && step(left) == left
            && (forall f :: s <= f && step(f) == f ==> left <= f)
            && RunFrom(step, errs, left, limit, n) == (Done, left)
  {
    var left := RunFrom(step, errs, s, limit, n).1;
    var k := RunIsIterate(step, errs, s, limit, n);
    IterateGrows(step, s, 0, k);
    forall f | s <= f && step(f) == f
      ensures left <= f
    {
      IterateWithinFixpoint(step, s, k, f);
    }
    assert !errs(Iterate(step, s, k - 1));
  }

  /** Steps that stay within a finite universe reach a fixpoint, in at most as many steps
      as the universe has elements. */
  lemma IterateReachesFixpoint<T(!new)>(step: Step<T>, s: set<T>, universe: set<T>) returns (k: nat)
    requires Inflating(step)
    requires forall i: nat :: Iterate(step, s, i) <= universe
    ensures k <= |universe| && step(Iterate(step, s, k)) == Iterate(step, s, k)
  {
    k := 0;
    while k <= |universe| && step(Iterate(step, s, k)) != Iterate(step, s, k)
      invariant k <= |universe| + 1 && |Iterate(step, s, k)| >= k
      decreases |universe| + 1 - k
    {
      assert Iterate(step, s, k + 1) == step(Iterate(step, s, k));
      SubsetCount(Iterate(step, s, k), Iterate(step, s, k + 1));
      k := k + 1;
    }
    SubsetCount(Iterate(step, s, k), universe);
  }

  /** A run that uses up its iterations adds an element in each of them. */
  lemma {:induction false} EndlessRunGrows<T(!new)>(step: Step<T>, errs: Failing<T>, s: set<T>, limit: nat, n: nat)
    requires Inflating(step)
    requires RunFrom(step, errs, s, limit, n).0.TooManyIterations?
    ensures |Iterate(step, s, n)| >= n + |s|
    decreases n
  {
    if n > 0 {
      SubsetCount(s, step(s));
      EndlessRunGrows(step, errs, step(s), limit, n - 1);
      IterateShift(step, s, n - 1);
    }
  }

  /** The small step is what a projection shows of the big one, and errs no more often. */
  ghost predicate Projects<T(!new)>(big: Step<T>, bigErrs: Failing<T>, small: Step<T>, smallErrs: Failing<T>,
                                    proj: Step<T>) {
    forall s :: proj(big(s)) == small(proj(s)) && proj(s) <= s && (smallErrs(proj(s)) ==> bigErrs(s))
  }

  lemma {:induction false} IterateProjects<T(!new)>(big: Step<T>, bigErrs: Failing<T>, small: Step<T>,
                                                    smallErrs: Failing<T>, proj: Step<T>, s: set<T>, n: nat)
    requires Projects(big, bigErrs, small, smallErrs, proj)
    ensures Iterate(small, proj(s), n) == proj(Iterate(big, s, n)) <= Iterate(big, s, n)
    ensures smallErrs(Iterate(small, proj(s), n)) ==> bigErrs(Iterate(big, s, n))
    decreases n
  {
    if n > 0 {
      IterateProjects(big, bigErrs, small, smallErrs, proj, s, n - 1);
    }
  }

  /** When the big run succeeds so does its projection, under the same limits. */
  lemma RunProjects<T(!new)>(big: Step<T>, bigErrs: Failing<T>, small: Step<T>, smallErrs: Failing<T>, proj: Step<T>,
                             s: set<T>, limit: nat, n: nat)
    requires Inflating(big) && Inflating(small) && Projects(big, bigErrs, small, smallErrs, proj)
    requires RunFrom(big, bigErrs, s, limit, n).0.Done?
    ensures RunFrom(small, smallErrs, proj(s), limit, n) == (Done, proj(RunFrom(big, bigErrs, s, limit, n).1))
  {
    hide Iterate, Inflating, Projects, RunFrom;
    var k := RunIsIterate(big, bigErrs, s, limit, n);
    forall i: nat
      ensures Iterate(small, proj(s), i) == proj(Iterate(big, s, i)) <= Iterate(big, s, i)
      ensures smallErrs(Iterate(small, proj(s), i)) ==> bigErrs(Iterate(big, s, i))
    {
      IterateProjects(big, bigErrs, small, smallErrs, proj, s, i);
    }
    SubsetCount(proj(Iterate(big, s, k - 1)), Iterate(big, s, k - 1));
    StabilisingRuns(small, smallErrs, proj(s), limit, n, k - 1);
  }

  // ---- Why a run ends ----

  /** The run gets to round k: the rounds before add something, stay within the limit and do not err. */
  ghost predicate GetsTo<T>(step: Step<T>, errs: Failing<T>, s: set<T>, limit: nat, k: nat) {
    forall i: nat :: i < k ==> !EndsAt(step, errs, s, limit, i)
  }

  /** Round i errs, makes too many, or adds nothing. */
  ghost predicate EndsAt<T>(step: Step<T>, errs: Failing<T>, s: set<T>, limit: nat, i: nat) {
    || errs(Iterate(step, s, i)) || |Iterate(step, s, i + 1)| >= limit
    || |Iterate(step, s, i + 1)| == |Iterate(step, s, i)|
  }

  /** Round k errs. */
  ghost predicate ErrsAtRound<T>(step: Step<T>, errs: Failing<T>, s: set<T>, limit: nat, k: nat) {
    GetsTo(step, errs, s, limit, k) && errs(Iterate(step, s, k))
  }

  /** Round k makes too many. */
  ghost predicate OverflowsAt<T>(step: Step<T>, errs: Failing<T>, s: set<T>, limit: nat, k: nat) {
    GetsTo(step, errs, s, limit, k) && !errs(Iterate(step, s, k)) && |Iterate(step, s, k + 1)| >= limit
  }

  /** A run ends for a rule error, for too many facts, or out of rounds exactly when this is what it meets first. */
  lemma RunOutcomes<T>(step: Step<T>, errs: Failing<T>, s: set<T>, limit: nat, n: nat)
    ensures var r := RunFrom(step, errs, s, limit, n);
            && (r.0 == RuleError <==> exists k: nat :: k < n && ErrsAtRound(step, errs, s, limit, k))
            && (r.0 == TooManyFacts <==> exists k: nat :: k < n && OverflowsAt(step, errs, s, limit, k))
            && (r.0 == TooManyIterations <==> GetsTo(step, errs, s, limit, n))
  {
    var k := 0;
    while k < n && !EndsAt(step, errs, s, limit, k)
      invariant k <= n && GetsTo(step, errs, s, limit, k)
      invariant RunFrom(step, errs, s, limit, n) == RunFrom(step, errs, Iterate(step, s, k), limit, n - k)
    {
      RunUnfolds(step, errs, Iterate(step, s, k), limit, n - k);
      k := k + 1;
    }
    if k < n {
      RunUnfolds(step, errs, Iterate(step, s, k), limit, n - k);
      assert Iterate(step, s, k + 1) == step(Iterate(step, s, k));
      forall j: nat | GetsTo(step, errs, s, limit, j)
        ensures j <= k
      {
        assert EndsAt(step, errs, s, limit, k);
      }
      hide Iterate, RunFrom;
      assert errs(Iterate(step, s, k)) ==> ErrsAtRound(step, errs, s, limit, k);
      assert !errs(Iterate(step, s, k)) && |Iterate(step, s, k + 1)| >= limit ==> OverflowsAt(step, errs, s, limit, k);
    } else {
      NoRunLeft(step, errs, Iterate(step, s, k), limit);
      hide Iterate, RunFrom;
      forall j: nat | j < n
        ensures !ErrsAtRound(step, errs, s, limit, j) && !OverflowsAt(step, errs, s, limit, j)
      {
        assert !EndsAt(step, errs, s, limit, j);
      }
    }
  }
}
