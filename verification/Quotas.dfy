/** Counting places under a quota of two per contest: what one selection can cost the next. Every
    vector holds one entry per contest, and no entry exceeds the quota. */
module Quotas {
  import opened Prelude

  const QUOTA := 2

  predicate WithinQuota(g: seq<nat>) { forall i :: 0 <= i < |g| ==> g[i] <= QUOTA }

  predicate Within(x: seq<nat>, h: seq<nat>) {
    |x| == |h| && forall i :: 0 <= i < |x| ==> x[i] <= h[i]
  }

  function Left(used: nat): nat { if used >= QUOTA then 0 else QUOTA - used }

  /** How many of the `g` rows still fit once `used` places are taken. */
  function Room(used: seq<nat>, g: seq<nat>): nat
    requires |used| == |g|
  {
    if used == [] then 0
    else
      var n := |used| - 1;
      Room(used[..n], g[..n]) + Smaller(Left(used[n]), g[n])
  }

  /** The places of `x` in contests with two `g` rows: each costs one of them. */
  function InFull(x: seq<nat>, g: seq<nat>): nat
    requires |x| == |g|
  {
    if x == [] then 0
    else
      var n := |x| - 1;
      InFull(x[..n], g[..n]) + if g[n] == 2 then x[n] else 0
  }

  /** The contests with one `g` row where `x` has two places: the pair costs that row. */
  function Pairs(x: seq<nat>, g: seq<nat>): nat
    requires |x| == |g|
  {
    if x == [] then 0
    else
      var n := |x| - 1;
      Pairs(x[..n], g[..n]) + if g[n] == 1 && x[n] == 2 then 1 else 0
  }

  /** The most that `n` places within `h` can cost the `g` rows. */
  function WorstLoss(h: seq<nat>, g: seq<nat>, n: nat): nat
    requires |h| == |g|
  {
    var full := Smaller(n, InFull(h, g));
    full + Smaller((n - full) / 2, Pairs(h, g))
  }

  // ----- the bound, and that it is reached

  lemma {:induction false} RoomAndLoss(x: seq<nat>, g: seq<nat>)
    requires |x| == |g| && WithinQuota(x) && WithinQuota(g)
    ensures Room(x, g) + InFull(x, g) + Pairs(x, g) == SumNats(g)
    ensures InFull(x, g) + 2 * Pairs(x, g) <= SumNats(x)
  {
    if x != [] {
      RoomAndLoss(x[..|x| - 1], g[..|x| - 1]);
    }
  }

  lemma {:induction false} LossWithin(x: seq<nat>, h: seq<nat>, g: seq<nat>)
    requires Within(x, h) && |h| == |g| && WithinQuota(h)
    ensures InFull(x, g) <= InFull(h, g) && Pairs(x, g) <= Pairs(h, g) && SumNats(x) <= SumNats(h)
  {
    if x != [] {
      LossWithin(x[..|x| - 1], h[..|x| - 1], g[..|x| - 1]);
    }
  }

  lemma LossBounded(x: seq<nat>, h: seq<nat>, g: seq<nat>)
    requires Within(x, h) && |h| == |g| && WithinQuota(h) && WithinQuota(g)
    ensures InFull(x, g) + Pairs(x, g) <= WorstLoss(h, g, SumNats(x))
  {
    RoomAndLoss(x, g);
    LossWithin(x, h, g);
    Tradeoff(InFull(x, g), Pairs(x, g), InFull(h, g), Pairs(h, g), SumNats(x));
  }

  /** A place in a full contest is never worse spent than half a pair. */
  lemma Tradeoff(full: nat, pairs: nat, mostFull: nat, mostPairs: nat, n: nat)
    requires full <= mostFull && pairs <= mostPairs && full + 2 * pairs <= n
    ensures var t := Smaller(n, mostFull); full + pairs <= t + Smaller((n - t) / 2, mostPairs)
  {}

  /** Any cost up to the bound can be had, with the other places anywhere. */
  lemma {:induction false} LossReached(h: seq<nat>, g: seq<nat>, full: nat, pairs: nat, n: nat) returns (x: seq<nat>)
    requires |h| == |g| && WithinQuota(h) && WithinQuota(g)
    requires full <= InFull(h, g) && pairs <= Pairs(h, g) && full + 2 * pairs <= n <= SumNats(h)
    ensures Within(x, h) && SumNats(x) == n
    ensures full <= InFull(x, g) && pairs <= Pairs(x, g)
    decreases |h|
  {
    x := [];
    if h != [] {
      var k := |h| - 1;
      var h', g' := h[..k], g[..k];
      RoomAndLoss(h', g');
      var wanted := if g[k] == 2 then Smaller(h[k], full) else if g[k] == 1 && h[k] == 2 && pairs > 0 then 2 else 0;
      var least := if n > SumNats(h') then n - SumNats(h') else 0;
      var last := if wanted >= least then wanted else least;
      var before := LossReached(h', g', if g[k] == 2 then full - wanted else full,
        if g[k] == 1 && h[k] == 2 && pairs > 0 then pairs - 1 else pairs, n - last);
      x := before + [last];
      assert x[..k] == before;
    }
  }

  /** Some `n` places within `h` leave fewer than `need` of the `g` rows exactly when there are `n`
      places at all and the worst loss leaves fewer. */
  lemma SomeChoiceStarves(h: seq<nat>, g: seq<nat>, n: nat, need: nat)
    requires |h| == |g| && WithinQuota(h) && WithinQuota(g)
    ensures (exists x :: Within(x, h) && SumNats(x) == n && Room(x, g) < need)
        <==> SumNats(h) >= n && SumNats(g) < WorstLoss(h, g, n) + need
  {
    if x :| Within(x, h) && SumNats(x) == n && Room(x, g) < need {
      WithinIsBounded(x, h);
      RoomAndLoss(x, g);
      LossBounded(x, h, g);
      LossWithin(x, h, g);
    }
    if SumNats(h) >= n && SumNats(g) < WorstLoss(h, g, n) + need {
      var full := Smaller(n, InFull(h, g));
      var x := LossReached(h, g, full, Smaller((n - full) / 2, Pairs(h, g)), n);
      WithinIsBounded(x, h);
      RoomAndLoss(x, g);
    }
  }

  lemma WithinIsBounded(x: seq<nat>, h: seq<nat>)
    requires Within(x, h) && WithinQuota(h)
    ensures WithinQuota(x)
  {}

  // ----- two selections before the third

  function Plus(x: seq<nat>, y: seq<nat>): (z: seq<nat>)
    requires |x| == |y|
    ensures |z| == |x| && forall i :: 0 <= i < |z| ==> z[i] == x[i] + y[i]
  {
    seq(|x|, i requires 0 <= i < |x| => x[i] + y[i])
  }

  /** Places within `h` and `m` that together keep the quota. */
  predicate Together(x: seq<nat>, y: seq<nat>, h: seq<nat>, m: seq<nat>) {
    Within(x, h) && Within(y, m) && |x| == |y| && WithinQuota(Plus(x, y))
  }

  /** The places one contest can give to the two selections. */
  datatype Share = Share(hard: nat, medium: nat)

  const SHARES: set<Share> := {Share(0, 0), Share(0, 1), Share(0, 2), Share(1, 0), Share(1, 1), Share(2, 0)}

  /** Whether `a` places within `h` and `b` within `m` can leave room for exactly `r` of the `e`
      rows, decided contest by contest. */
  predicate CanLeave(h: seq<nat>, m: seq<nat>, e: seq<nat>, a: nat, b: nat, r: nat)
    requires |h| == |m| == |e|
    decreases |h|, 1
  {
    if h == [] then a == 0 && b == 0 && r == 0
    else exists s :: s in SHARES && CanLeaveWith(h, m, e, a, b, r, s)
  }

  /** The same, with the last contest giving share `s`. */
  predicate CanLeaveWith(h: seq<nat>, m: seq<nat>, e: seq<nat>, a: nat, b: nat, r: nat, s: Share)
    requires |h| == |m| == |e| && h != []
    decreases |h|, 0
  {
    var n := |h| - 1;
    var room := Smaller(Left(s.hard + s.medium), e[n]);
    && s.hard <= h[n] && s.medium <= m[n] && s.hard <= a && s.medium <= b && room <= r
    && CanLeave(h[..n], m[..n], e[..n], a - s.hard, b - s.medium, r - room)
  }

  lemma {:induction false} TogetherLeaves(h: seq<nat>, m: seq<nat>, e: seq<nat>, x: seq<nat>, y: seq<nat>)
    requires |h| == |m| == |e| && Together(x, y, h, m)
    ensures CanLeave(h, m, e, SumNats(x), SumNats(y), Room(Plus(x, y), e))
  {
    if h != [] {
      var n := |h| - 1;
      TogetherBefore(h, m, x, y);
      TogetherLeaves(h[..n], m[..n], e[..n], x[..n], y[..n]);
      assert Share(x[n], y[n]) in SHARES;
      assert CanLeaveWith(h, m, e, SumNats(x), SumNats(y), Room(Plus(x, y), e), Share(x[n], y[n]));
    }
  }

  lemma TogetherBefore(h: seq<nat>, m: seq<nat>, x: seq<nat>, y: seq<nat>)
    requires Together(x, y, h, m) && x != []
    ensures var n := |x| - 1;
            && Together(x[..n], y[..n], h[..n], m[..n]) && Plus(x, y)[..n] == Plus(x[..n], y[..n])
            && x[n] + y[n] <= QUOTA && x[n] <= h[n] && y[n] <= m[n]
  {
    var n := |x| - 1;
    assert Plus(x, y)[..n] == Plus(x[..n], y[..n]);
    forall i | 0 <= i < n ensures Plus(x[..n], y[..n])[i] <= QUOTA { assert Plus(x, y)[i] <= QUOTA; }
    assert Plus(x, y)[n] <= QUOTA;
  }

  lemma TogetherAfter(h: seq<nat>, m: seq<nat>, x: seq<nat>, y: seq<nat>, s: Share)
    requires |h| == |m| == |x| + 1 && Together(x, y, h[..|x|], m[..|x|])
    requires s in SHARES && s.hard <= h[|x|] && s.medium <= m[|x|]
    ensures Together(x + [s.hard], y + [s.medium], h, m)
    ensures Plus(x + [s.hard], y + [s.medium]) == Plus(x, y) + [s.hard + s.medium]
  {
    assert Plus(x + [s.hard], y + [s.medium]) == Plus(x, y) + [s.hard + s.medium];
  }

  lemma RoomNext(used: seq<nat>, g: seq<nat>, u: nat)
    requires |g| == |used| + 1
    ensures Room(used + [u], g) == Room(used, g[..|used|]) + Smaller(Left(u), g[|used|])
  {
    assert (used + [u])[..|used|] == used;
  }

  lemma {:induction false} LeavesTogether(h: seq<nat>, m: seq<nat>, e: seq<nat>, a: nat, b: nat, r: nat)
      returns (x: seq<nat>, y: seq<nat>)
    requires |h| == |m| == |e| && CanLeave(h, m, e, a, b, r)
    ensures Together(x, y, h, m) && SumNats(x) == a && SumNats(y) == b && Room(Plus(x, y), e) == r
    decreases |h|
  {
    x, y := [], [];
    if h != [] {
      var n := |h| - 1;
      var s :| s in SHARES && CanLeaveWith(h, m, e, a, b, r, s);
      var room := Smaller(Left(s.hard + s.medium), e[n]);
      var x', y' := LeavesTogether(h[..n], m[..n], e[..n], a - s.hard, b - s.medium, r - room);
      TogetherAfter(h, m, x', y', s);
      SumNatsAppend(x', s.hard);
      SumNatsAppend(y', s.medium);
      RoomNext(Plus(x', y'), e, s.hard + s.medium);
      x, y := x' + [s.hard], y' + [s.medium];
    }
  }

  /** The decision is exact: some joint choice leaves room for `r` rows exactly when it says so. */
  lemma CanLeaveIsExact(h: seq<nat>, m: seq<nat>, e: seq<nat>, a: nat, b: nat, r: nat)
    requires |h| == |m| == |e|
    ensures CanLeave(h, m, e, a, b, r) <==>
      exists x, y :: Together(x, y, h, m) && SumNats(x) == a && SumNats(y) == b && Room(Plus(x, y), e) == r
  {
    if CanLeave(h, m, e, a, b, r) {
      var x, y := LeavesTogether(h, m, e, a, b, r);
    }
    if x, y :| Together(x, y, h, m) && SumNats(x) == a && SumNats(y) == b && Room(Plus(x, y), e) == r {
      TogetherLeaves(h, m, e, x, y);
    }
  }

  /** A bound without the split: no joint choice costs the `e` rows more than as many places of
      either kind could. */
  lemma JointLossBounded(h: seq<nat>, m: seq<nat>, e: seq<nat>, x: seq<nat>, y: seq<nat>)
    requires |h| == |m| == |e| && WithinQuota(e) && Together(x, y, h, m)
    ensures SumNats(Plus(x, y)) == SumNats(x) + SumNats(y)
    ensures SumNats(e) <= Room(Plus(x, y), e) + WorstLoss(Either(h, m), e, SumNats(x) + SumNats(y))
  {
    var z := Plus(x, y);
    SumPlus(x, y);
    assert Within(z, Either(h, m));
    RoomAndLoss(z, e);
    LossBounded(z, Either(h, m), e);
  }

  /** The rows of either kind that one contest can contribute. */
  function Either(h: seq<nat>, m: seq<nat>): (g: seq<nat>)
    requires |h| == |m|
    ensures |g| == |h| && forall i :: 0 <= i < |g| ==> g[i] == Smaller(QUOTA, h[i] + m[i])
  {
    seq(|h|, i requires 0 <= i < |h| => Smaller(QUOTA, h[i] + m[i]))
  }

  lemma {:induction false} SumPlus(x: seq<nat>, y: seq<nat>)
    requires |x| == |y|
    ensures SumNats(Plus(x, y)) == SumNats(x) + SumNats(y)
  {
    if x != [] {
      var n := |x| - 1;
      SumPlus(x[..n], y[..n]);
      assert Plus(x, y)[..n] == Plus(x[..n], y[..n]);
    }
  }
}
