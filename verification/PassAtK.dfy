/** `_pass_at_k`: the combinatorial estimator equals a counted fraction of subsets. */
module PassAtK {
  import opened Finite
  import opened Reals

  // ----- the binomial coefficient, and what it counts

  function Comb(n: nat, k: nat): nat {
    if k == 0 then 1 else if n == 0 then 0 else Comb(n - 1, k - 1) + Comb(n - 1, k)
  }

  ghost function KSubsets<T>(s: set<T>, k: nat): set<set<T>> {
    set x | x <= s && |x| == k
  }

  lemma {:induction false} CombPositive(n: nat, k: nat)
    ensures k <= n ==> Comb(n, k) > 0
    ensures k > n ==> Comb(n, k) == 0
  {
    if k > 0 && n > 0 {
      CombPositive(n - 1, k - 1);
      CombPositive(n - 1, k);
    }
  }

  function Adjoin<T(==)>(e: T): set<T> -> set<T> {
    (x: set<T>) => x + {e}
  }

  lemma AdjoinBack<T>(e: T, x: set<T>)
    ensures e !in x ==> Adjoin(e)(x) - {e} == x
    ensures e in x ==> Adjoin(e)(x - {e}) == x
  {}

  /** The k-element subsets of `s`, split by whether they contain `e`. */
  lemma {:induction false} SplitByMember<T>(s: set<T>, e: T, k: nat)
    requires e in s && k > 0
    ensures |KSubsets(s, k)| == |KSubsets(s - {e}, k)| + |KSubsets(s - {e}, k - 1)|
  {
    var rest := s - {e};
    var without, smaller := KSubsets(rest, k), KSubsets(rest, k - 1);
    var containing := Image(Adjoin(e), smaller);
    forall x, y | x in smaller && y in smaller && Adjoin(e)(x) == Adjoin(e)(y) ensures x == y {
      AdjoinBack(e, x);
      AdjoinBack(e, y);
    }
    ImageSize(Adjoin(e), smaller);
    forall x ensures x in KSubsets(s, k) <==> x in without || x in containing {
      MemberSplits(s, e, k, x);
    }
    DisjointUnionSize(KSubsets(s, k), without, containing);
  }

  lemma DisjointUnionSize<T>(all: set<T>, a: set<T>, b: set<T>)
    requires forall x :: x in all <==> x in a || x in b
    requires forall x :: x in a ==> x !in b
    ensures |all| == |a| + |b|
  {
    assert all == a + b && a !! b;
  }

  lemma MemberSplits<T>(s: set<T>, e: T, k: nat, x: set<T>)
    requires e in s && k > 0
    ensures x in KSubsets(s, k) <==>
      x in KSubsets(s - {e}, k) || x in Image(Adjoin(e), KSubsets(s - {e}, k - 1))
    ensures x in Image(Adjoin(e), KSubsets(s - {e}, k - 1)) ==> e in x
  {
    AdjoinBack(e, x);
    var smaller := KSubsets(s - {e}, k - 1);
    if x in Image(Adjoin(e), smaller) {
      var y :| y in smaller && x == Adjoin(e)(y);
      assert x == y + {e};
    }
    if x in KSubsets(s, k) && e in x {
      assert x - {e} in smaller;
      assert Adjoin(e)(x - {e}) in Image(Adjoin(e), smaller);
    }
  }

  /** `Comb(|s|, k)` is the number of k-element subsets of `s`. */
  lemma {:induction false} CombCounts<T>(s: set<T>, k: nat)
    ensures |KSubsets(s, k)| == Comb(|s|, k)
    decreases |s|
  {
    if k == 0 {
      assert KSubsets(s, 0) == {{}};
    } else if s == {} {
      assert KSubsets(s, k) == {};
    } else {
      var e :| e in s;
      SplitByMember(s, e, k);
      CombCounts(s - {e}, k);
      CombCounts(s - {e}, k - 1);
    }
  }

  // ----- the estimator

  function PassAtK(successes: nat, total: nat, k: nat): real
    requires successes <= total && k <= total
  {
    if successes == 0 then 0.0
    else
      var failures := total - successes;
      if failures < k then 1.0
      else
        CombPositive(total, k);
        1.0 - Comb(failures, k) as real / Comb(total, k) as real
  }

  /** Both early returns agree with the binomial formula. */
  lemma FormulaHolds(successes: nat, total: nat, k: nat)
    requires successes <= total && k <= total
    ensures Comb(total, k) > 0
    ensures PassAtK(successes, total, k)
         == 1.0 - Comb(total - successes, k) as real / Comb(total, k) as real
  {
    CombPositive(total, k);
    CombPositive(total - successes, k);
    if successes == 0 {
      QuotientUnique(1.0, Comb(total, k) as real, Comb(total, k) as real);
    }
  }

  /** For any `successful` among the `trials`, the estimate is the fraction of the k-element
      subsets of the trials that contain a success. */
  lemma {:induction false} IsSubsetFraction<T>(trials: set<T>, successful: set<T>, k: nat)
    requires successful <= trials && k <= |trials|
    ensures |successful| <= |trials| && |KSubsets(trials, k)| > 0
    ensures var hits := set x | x in KSubsets(trials, k) && x * successful != {};
            PassAtK(|successful|, |trials|, k) == |hits| as real / |KSubsets(trials, k)| as real
  {
    var all, misses := KSubsets(trials, k), KSubsets(trials - successful, k);
    var hits := set x | x in all && x * successful != {};
    SubsetSize(successful, trials);
    forall x | x in all ensures x in misses <==> x * successful == {} {
      MissesAll(trials, successful, x);
    }
    DisjointUnionSize(all, hits, misses);
    CombCounts(trials, k);
    CombCounts(trials - successful, k);
    FormulaHolds(|successful|, |trials|, k);
    ComplementFraction(|hits| as real, |misses| as real, |all| as real);
  }

  lemma MissesAll<T>(trials: set<T>, successful: set<T>, x: set<T>)
    requires x <= trials
    ensures x <= trials - successful <==> x * successful == {}
  {
    assert forall e :: e in x && e in successful ==> e in x * successful;
  }

  lemma ComplementFraction(hits: real, misses: real, all: real)
    requires all > 0.0 && hits + misses == all
    ensures 1.0 - misses / all == hits / all
  {
    QuotientTimes(misses, all);
    QuotientUnique(1.0 - misses / all, hits, all);
  }

  // ----- monotonicity

  /** The absorption identity, for the top index. */
  lemma {:induction false} Absorb(n: nat, k: nat)
    requires k <= n
    ensures (k + 1) * Comb(n, k + 1) == (n - k) * Comb(n, k)
  {
    if n > 0 {
      if k == n {
        CombPositive(n, k + 1);
      } else if k == 0 {
        CombOne(n);
      } else {
        Absorb(n - 1, k - 1);
        Absorb(n - 1, k);
        AbsorbStep(n, k, Comb(n - 1, k - 1), Comb(n - 1, k), Comb(n - 1, k + 1));
      }
    } else {
      CombPositive(n, k + 1);
    }
  }

  lemma AbsorbStep(n: nat, k: nat, a: nat, b: nat, c: nat)
    requires k * b == (n - k) * a && (k + 1) * c == (n - 1 - k) * b
    ensures (k + 1) * (b + c) == (n - k) * (a + b)
  {}

  lemma {:induction false} CombOne(n: nat)
    ensures Comb(n, 1) == n
  {
    if n > 0 {
      CombOne(n - 1);
    }
  }

  /** A larger sample never lowers the estimate. */
  lemma {:induction false} MonotoneInK(successes: nat, total: nat, k: nat)
    requires successes <= total && k < total
    ensures PassAtK(successes, total, k) <= PassAtK(successes, total, k + 1)
  {
    var f := total - successes;
    FormulaHolds(successes, total, k);
    FormulaHolds(successes, total, k + 1);
    if k < f {
      Absorb(f, k);
      Absorb(total, k);
      FractionFalls(Comb(f, k), Comb(total, k), Comb(f, k + 1), Comb(total, k + 1), f - k, total - k, k + 1);
    } else {
      CombPositive(f, k + 1);
      NonNegativeQuotient(Comb(f, k) as real, Comb(total, k) as real);
    }
  }

  lemma FractionFalls(a: nat, b: nat, a': nat, b': nat, p: nat, q: nat, k: nat)
    requires b > 0 && b' > 0 && k > 0 && p <= q
    requires k * a' == p * a && k * b' == q * b
    ensures a' as real / b' as real <= a as real / b as real
  {
    Regroup(k, a', b, p, a);
    Regroup(k, b', a, q, b);
    CancelCount(k, p, q, a' * b, b' * a, a * b);
    CompareFractions(a' as real, b' as real, a as real, b as real);
  }

  lemma Regroup(k: nat, x: nat, y: nat, p: nat, z: nat)
    requires k * x == p * z
    ensures k * (x * y) == p * (z * y)
  {
    assert k * (x * y) == (k * x) * y;
  }

  lemma CancelCount(k: nat, p: nat, q: nat, x: nat, y: nat, c: nat)
    requires k > 0 && p <= q && k * x == p * c && k * y == q * c
    ensures x <= y
  {
    assert p * c <= q * c;
  }

  lemma CompareFractions(a': real, b': real, a: real, b: real)
    requires b > 0.0 && b' > 0.0 && a' * b <= a * b'
    ensures a' / b' <= a / b
  {
    var x, y := a' / b', a / b;
    assert x * b' == a' && y * b == a;
    assert (x * b') * b == x * (b * b') && (y * b) * b' == y * (b * b');
    PositiveProduct(b, b');
    CancelOrder(x, y, b * b');
  }

  lemma {:induction false} CombMonotone(m: nat, n: nat, k: nat)
    requires m <= n
    ensures Comb(m, k) <= Comb(n, k)
    decreases n
  {
    if m < n {
      CombMonotone(m, n - 1, k);
    }
  }

  /** More successes never lower the estimate. */
  lemma MonotoneInSuccesses(successes: nat, total: nat, k: nat)
    requires successes < total && k <= total
    ensures PassAtK(successes, total, k) <= PassAtK(successes + 1, total, k)
  {
    hide Comb, PassAtK;
    CombPositive(total, k);
    FormulaHolds(successes, total, k);
    FormulaHolds(successes + 1, total, k);
    CombMonotone(total - successes - 1, total - successes, k);
    var a', a, b := Comb(total - successes - 1, k), Comb(total - successes, k), Comb(total, k);
    ScaleOrder(a' as real, a as real, b as real);
    CompareFractions(a' as real, b as real, a as real, b as real);
  }
}
