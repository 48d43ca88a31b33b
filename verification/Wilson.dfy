/** The Wilson score interval of padawan/atlas/boundary.py, over exact reals. */
module Wilson {
  import opened Prelude
  import opened Reals

  /** The two numerical routines the interval calls: the square root, and the quantile of the
      standard normal distribution. They are parameters; only the facts in `Sound` are used. */
  datatype Numerics = Numerics(sqrt: real -> real, quantile: real -> real) {
    ghost predicate Sound() {
      && (forall x: real :: x >= 0.0 ==> sqrt(x) >= 0.0 && sqrt(x) * sqrt(x) == x)
      && (forall p: real :: 0.5 < p < 1.0 ==> quantile(p) > 0.0)
    }
  }

  datatype Interval = Interval(lower: real, upper: real) {
    function Width(): real { upper - lower }
  }

  datatype WilsonError = NoObservedTrial | SuccessesOutOfRange | ConfidenceOutOfRange

  function Proportion(successes: nat, trials: nat): real
    requires trials > 0
  {
    successes as real / trials as real
  }

  function Denominator(n: real, z: real): (d: real)
    requires n > 0.0
    ensures d >= 1.0
  {
    NonNegativeQuotient(Square(z), n);
    1.0 + Square(z) / n
  }

  /** The centre for proportion `p` over `n` trials and normal score `z`, before clamping. */
  function Center(p: real, n: real, z: real): real
    requires n > 0.0
  {
    (p + Square(z) / (2.0 * n)) / Denominator(n, z)
  }

  function Radicand(p: real, n: real, z: real): real
    requires n > 0.0
  {
    PositiveSquare(n);
    p * (1.0 - p) / n + Square(z) / (4.0 * Square(n))
  }

  /** Half the interval's width before clamping. */
  function Margin(p: real, n: real, z: real, lib: Numerics): real
    requires n > 0.0
  {
    z * lib.sqrt(Radicand(p, n, z)) / Denominator(n, z)
  }

  function WilsonInterval(successes: int, trials: int, confidence: real, lib: Numerics)
    : (r: Result<Interval, WilsonError>)
  {
    if trials <= 0 then Err(NoObservedTrial)
    else if successes < 0 || successes > trials then Err(SuccessesOutOfRange)
    else if confidence <= 0.0 || confidence >= 1.0 then Err(ConfidenceOutOfRange)
    else
      var z := lib.quantile((1.0 + confidence) / 2.0);
      var p := Proportion(successes, trials);
      var center := Center(p, trials as real, z);
      var margin := Margin(p, trials as real, z, lib);
      Ok(Interval(Max(0.0, center - margin), Min(1.0, center + margin)))
  }

  lemma ProportionRange(successes: nat, trials: nat)
    requires trials > 0 && successes <= trials
    ensures 0.0 <= Proportion(successes, trials) <= 1.0
    ensures Proportion(trials - successes, trials) == 1.0 - Proportion(successes, trials)
  {
    FractionRange(successes as real, trials as real);
  }

  // ----- the inequalities behind the bounds; `m` is the numerator of the half-width

  lemma NumeratorBelowCenter(p: real, a: real, q: real, m: real)
    requires 0.0 <= p && a >= 0.0 && m >= 0.0 && q == p * (1.0 - p)
    requires m * m == a * q + a * a / 4.0
    ensures m <= p + a / 2.0
  {
    var c := p + a / 2.0;
    NonNegativeProduct(p, p);
    NonNegativeProduct(a, p * p);
    assert c * c == p * p + a * p + a * a / 4.0;
    assert a * q == a * p - a * (p * p);
    SquareMonotone(m, c);
  }

  lemma NumeratorCoversOffset(p: real, a: real, q: real, m: real)
    requires 0.0 <= p <= 1.0 && a >= 0.0 && m >= 0.0 && q == p * (1.0 - p)
    requires m * m == a * q + a * a / 4.0
    ensures -m <= a * (0.5 - p) <= m
  {
    var h := 0.5 - p;
    var e := a * h;
    assert h * h == 0.25 - q;
    assert e * e == (a * a) * (h * h);
    assert (a * a) * (0.25 - q) == a * a / 4.0 - a * (a * q);
    NonNegativeProduct(p, 1.0 - p);
    NonNegativeProduct(a, q);
    NonNegativeProduct(a, a * q);
    assert e * e <= m * m;
    var f := Abs(e);
    assert f * f == e * e;
    SquareMonotone(f, m);
  }

  lemma NumeratorIsNarrow(p: real, a: real, q: real, m: real)
    requires a >= 0.0 && m >= 0.0 && q == p * (1.0 - p)
    requires m * m == a * q + a * a / 4.0
    ensures 2.0 * m < 1.0 + a
  {
    var h := 0.5 - p;
    assert h * h == 0.25 - q;
    assert Square(h) == h * h;
    NonNegativeProduct(a, 0.25 - q);
    assert a * (0.25 - q) == a / 4.0 - a * q;
    var x, y := 2.0 * m, 1.0 + a;
    assert x * x == 4.0 * (m * m);
    assert y * y == 1.0 + 2.0 * a + a * a;
    assert x * x < y * y;
    if x >= y { SquareMonotone(y, x); }
  }

  lemma NumeratorBounds(p: real, a: real, z: real, x: real, r: real)
    requires 0.0 <= p <= 1.0 && a >= 0.0 && z > 0.0 && x > 0.0 && r >= 0.0 && r * r == x
    requires Square(z) * x == a * (p * (1.0 - p)) + a * a / 4.0
    ensures 0.0 < z * r <= p + a / 2.0
    ensures z * r <= 1.0 - p + a / 2.0
    ensures 2.0 * (z * r) < 1.0 + a
    ensures -(z * r) <= a * (0.5 - p) <= z * r
  {
    PositiveRoot(r);
    PositiveProduct(z, r);
    var m, q := z * r, p * (1.0 - p);
    assert m * m == Square(z) * (r * r);
    assert (1.0 - p) * (1.0 - (1.0 - p)) == q;
    NumeratorBelowCenter(p, a, q, m);
    NumeratorBelowCenter(1.0 - p, a, q, m);
    NumeratorCoversOffset(p, a, q, m);
    NumeratorIsNarrow(p, a, q, m);
  }

  lemma DivideBounds(p: real, a: real, d: real, m: real, center: real, margin: real)
    requires a >= 0.0 && m > 0.0 && d == 1.0 + a
    requires m <= p + a / 2.0 && m <= 1.0 - p + a / 2.0 && 2.0 * m < d
    requires -m <= a * (0.5 - p) <= m
    requires center * d == p + a / 2.0 && margin * d == m
    ensures 0.0 <= center - margin <= p <= center + margin <= 1.0
    ensures 0.0 < margin && 2.0 * margin < 1.0
  {
    var lower, upper := center - margin, center + margin;
    assert lower * d == center * d - margin * d;
    assert upper * d == center * d + margin * d;
    assert p * d == p + a * p;
    assert a * (0.5 - p) == a / 2.0 - a * p;
    CancelOrder(0.0, lower, d);
    CancelOrder(lower, p, d);
    CancelOrder(p, upper, d);
    CancelOrder(upper, 1.0, d);
    CancelStrict(2.0 * margin, 1.0, d);
    CancelStrict(0.0, margin, d);
  }

  // ----- how the code's quotients relate to `a == Square(z) / n`

  lemma HalfQuotient(x: real, n: real)
    requires n > 0.0
    ensures x / (2.0 * n) == x / n / 2.0
  {
    var v := x / n;
    assert v * n == x;
    assert (v / 2.0) * (2.0 * n) == v * n;
    QuotientUnique(v / 2.0, x, 2.0 * n);
  }

  lemma RadicandPositive(p: real, n: real, z: real)
    requires 0.0 <= p <= 1.0 && n > 0.0 && z > 0.0
    ensures Radicand(p, n, z) > 0.0
  {
    NonNegativeProduct(p, 1.0 - p);
    NonNegativeQuotient(p * (1.0 - p), n);
    PositiveSquare(n);
    SquareQuotientPositive(z, n);
  }

  lemma SquareQuotientPositive(z: real, n: real)
    requires z > 0.0 && n > 0.0 && Square(n) > 0.0
    ensures Square(z) / (4.0 * Square(n)) > 0.0
  {
    PositiveSquare(z);
    PositiveQuotient(Square(z), 4.0 * Square(n));
  }

  lemma ScaledFraction(s: real, q: real, n: real, a: real)
    requires n > 0.0 && a * n == s
    ensures s * (q / n) == a * q
  {
    var t := q / n;
    assert t * n == q;
    assert (a * n) * t == a * (t * n);
  }

  lemma ScaledSquare(s: real, n: real, a: real)
    requires n > 0.0 && a * n == s && Square(n) > 0.0
    ensures s * (s / (4.0 * Square(n))) == a * a / 4.0
  {
    assert (a * a / 4.0) * (4.0 * Square(n)) == (a * n) * (a * n);
    SquareOverScale(s, 4.0 * Square(n), a * a / 4.0);
  }

  lemma SquareOverScale(s: real, k: real, b: real)
    requires k > 0.0 && b * k == s * s
    ensures s * (s / k) == b
  {
    var t := s / k;
    assert t * k == s;
    assert (s * t) * k == s * (t * k);
    CancelFactor(s * t, b, k);
  }

  lemma ScaledRadicand(p: real, n: real, z: real)
    requires n > 0.0
    ensures var a := Square(z) / n;
            Square(z) * Radicand(p, n, z) == a * (p * (1.0 - p)) + a * a / 4.0
  {
    var s := Square(z);
    var a := s / n;
    var q := p * (1.0 - p);
    assert a * n == s;
    PositiveSquare(n);
    ScaledFraction(s, q, n, a);
    ScaledSquare(s, n, a);
    var u, v := q / n, s / (4.0 * Square(n));
    assert s * (u + v) == s * u + s * v;
  }

  /** Before any clamp the interval lies in [0, 1], contains the proportion and is narrower
      than 1. */
  lemma BoundsContainProportion(p: real, n: real, z: real, lib: Numerics)
    requires 0.0 <= p <= 1.0 && n > 0.0 && z > 0.0 && lib.Sound()
    ensures var center, margin := Center(p, n, z), Margin(p, n, z, lib);
            && 0.0 <= center - margin <= p <= center + margin <= 1.0
            && 0.0 < margin && 2.0 * margin < 1.0
  {
    hide Center, Margin, Radicand, Square;
    var x := Radicand(p, n, z);
    RadicandPositive(p, n, z);
    ScaledRadicand(p, n, z);
    NonNegativeQuotient(Square(z), n);
    DefiningEquations(p, n, z, lib);
    BoundsFrom(p, Square(z) / n, z, x, lib.sqrt(x), Center(p, n, z), Margin(p, n, z, lib));
  }

  lemma DefiningEquations(p: real, n: real, z: real, lib: Numerics)
    requires n > 0.0
    ensures var a := Square(z) / n;
            && Center(p, n, z) * (1.0 + a) == p + a / 2.0
            && Margin(p, n, z, lib) * (1.0 + a) == z * lib.sqrt(Radicand(p, n, z))
  {
    HalfQuotient(Square(z), n);
  }

  lemma BoundsFrom(p: real, a: real, z: real, x: real, r: real, center: real, margin: real)
    requires 0.0 <= p <= 1.0 && a >= 0.0 && z > 0.0 && x > 0.0 && r >= 0.0 && r * r == x
    requires Square(z) * x == a * (p * (1.0 - p)) + a * a / 4.0
    requires center * (1.0 + a) == p + a / 2.0 && margin * (1.0 + a) == z * r
    ensures 0.0 <= center - margin <= p <= center + margin <= 1.0
    ensures 0.0 < margin && 2.0 * margin < 1.0
  {
    NumeratorBounds(p, a, z, x, r);
    DivideBounds(p, a, 1.0 + a, z * r, center, margin);
  }

  /** The clamps of the returned interval never change it, so it has the same properties. */
  lemma IntervalIsUnclamped(successes: nat, trials: nat, confidence: real, lib: Numerics)
    requires trials > 0 && successes <= trials && 0.0 < confidence < 1.0 && lib.Sound()
    ensures var r := WilsonInterval(successes, trials, confidence, lib);
            var z := lib.quantile((1.0 + confidence) / 2.0);
            var p := Proportion(successes, trials);
            var center, margin := Center(p, trials as real, z), Margin(p, trials as real, z, lib);
            && r == Ok(Interval(center - margin, center + margin))
            && 0.0 <= r.value.lower <= p <= r.value.upper <= 1.0
            && 0.0 < r.value.Width() < 1.0
  {
    var z := lib.quantile((1.0 + confidence) / 2.0);
    var p := Proportion(successes, trials);
    ProportionRange(successes, trials);
    BoundsContainProportion(p, trials as real, z, lib);
  }

  // ----- the interval inverts the score test

  lemma OffsetIdentity(p: real, a: real, m: real, x: real)
    requires m * m == a * (p * (1.0 - p)) + a * a / 4.0
    ensures var e := (1.0 + a) * x - (p + a / 2.0);
            e * e - m * m == (1.0 + a) * ((x - p) * (x - p) - a * (x * (1.0 - x)))
  {
    var e := (1.0 + a) * x - (p + a / 2.0);
    var s := (x - p) * (x - p) - a * (x * (1.0 - x));
    assert s == (1.0 + a) * (x * x) - (2.0 * p + a) * x + p * p;
    ExpandOffset(p, a, x, e);
    ExpandProduct(p, a, x, s);
    assert a * (p * (1.0 - p)) == a * p - a * (p * p);
  }

  lemma ExpandOffset(p: real, a: real, x: real, e: real)
    requires e == (1.0 + a) * x - (p + a / 2.0)
    ensures e * e == (1.0 + 2.0 * a + a * a) * (x * x) - (2.0 * p + a + 2.0 * (a * p) + a * a) * x
                     + p * p + a * p + a * a / 4.0
  {
    var d, c := 1.0 + a, p + a / 2.0;
    var y := d * x;
    assert e * e == y * y - 2.0 * (y * c) + c * c;
    assert y * y == (d * d) * (x * x);
    assert d * d == 1.0 + 2.0 * a + a * a;
    assert y * c == (d * c) * x;
    assert 2.0 * (d * c) == 2.0 * p + a + 2.0 * (a * p) + a * a;
    assert c * c == p * p + a * p + a * a / 4.0;
  }

  lemma ExpandProduct(p: real, a: real, x: real, s: real)
    requires s == (1.0 + a) * (x * x) - (2.0 * p + a) * x + p * p
    ensures (1.0 + a) * s == (1.0 + 2.0 * a + a * a) * (x * x) - (2.0 * p + a + 2.0 * (a * p) + a * a) * x
                             + p * p + a * (p * p)
  {
    var d, u, b := 1.0 + a, x * x, 2.0 * p + a;
    assert d * s == d * (d * u) - d * (b * x) + d * (p * p);
    assert d * (d * u) == (d * d) * u;
    assert d * d == 1.0 + 2.0 * a + a * a;
    assert d * (b * x) == (d * b) * x;
    assert d * b == 2.0 * p + a + 2.0 * (a * p) + a * a;
  }

  lemma WithinMargin(e: real, m: real)
    requires m >= 0.0
    ensures -m <= e <= m <==> e * e <= m * m
  {
    var f := Abs(e);
    assert f * f == e * e;
    SquareMonotone(f, m);
  }

  lemma InsideIsSmall(p: real, a: real, m: real, center: real, margin: real, x: real)
    requires a >= 0.0 && m >= 0.0 && m * m == a * (p * (1.0 - p)) + a * a / 4.0
    requires center * (1.0 + a) == p + a / 2.0 && margin * (1.0 + a) == m
    ensures center - margin <= x <= center + margin <==> (x - p) * (x - p) <= a * (x * (1.0 - x))
  {
    var d := 1.0 + a;
    var e := d * x - (p + a / 2.0);
    var s := (x - p) * (x - p) - a * (x * (1.0 - x));
    OffsetIdentity(p, a, m, x);
    assert (x - center) * d == e;
    OrderTimes(x - center, margin, d);
    OrderTimes(-margin, x - center, d);
    WithinMargin(e, m);
    SameSign(s, d, e, m);
  }

  lemma SameSign(s: real, d: real, e: real, m: real)
    requires d > 0.0 && e * e - m * m == d * s
    ensures s <= 0.0 <==> e * e <= m * m
  {
    OrderTimes(s, 0.0, d);
  }

  /** What the interval is for: it holds exactly the success rates that the score test does not
      reject, those within `z` standard errors (taken at that rate) of the observed one. */
  lemma IntervalIsScoreTest(successes: nat, trials: nat, confidence: real, lib: Numerics, x: real)
    requires trials > 0 && successes <= trials && 0.0 < confidence < 1.0 && lib.Sound()
    ensures var r := WilsonInterval(successes, trials, confidence, lib);
            var z, p, n := lib.quantile((1.0 + confidence) / 2.0), Proportion(successes, trials), trials as real;
            && r.Ok?
            && (r.value.lower <= x <= r.value.upper <==> n * Square(x - p) <= Square(z) * (x * (1.0 - x)))
  {
    hide *;
    var z, p, n := lib.quantile((1.0 + confidence) / 2.0), Proportion(successes, trials), trials as real;
    IntervalIsUnclamped(successes, trials, confidence, lib);
    ProportionRange(successes, trials);
    SoundAt(lib, (1.0 + confidence) / 2.0, p, n);
    ScoreTestAt(p, n, z, lib, x);
  }

  lemma SoundAt(lib: Numerics, level: real, p: real, n: real)
    requires lib.Sound() && 0.5 < level < 1.0 && 0.0 <= p <= 1.0 && n > 0.0
    ensures var z := lib.quantile(level);
            && z > 0.0 && Radicand(p, n, z) > 0.0
            && var r := lib.sqrt(Radicand(p, n, z)); r >= 0.0 && r * r == Radicand(p, n, z)
  {
    hide Radicand;
    RadicandPositive(p, n, lib.quantile(level));
  }

  lemma ScoreTestAt(p: real, n: real, z: real, lib: Numerics, x: real)
    requires 0.0 <= p <= 1.0 && n > 0.0 && z > 0.0 && Radicand(p, n, z) > 0.0
    requires var r := lib.sqrt(Radicand(p, n, z)); r >= 0.0 && r * r == Radicand(p, n, z)
    ensures Center(p, n, z) - Margin(p, n, z, lib) <= x <= Center(p, n, z) + Margin(p, n, z, lib)
        <==> n * Square(x - p) <= Square(z) * (x * (1.0 - x))
  {
    hide *;
    ScaledRadicand(p, n, z);
    DefiningEquations(p, n, z, lib);
    SquareIsNonNegative(z);
    NonNegativeQuotient(Square(z), n);
    QuotientTimes(Square(z), n);
    ScoreTest(p, n, Square(z) / n, z, Radicand(p, n, z), lib.sqrt(Radicand(p, n, z)), Center(p, n, z),
              Margin(p, n, z, lib), x);
  }

  lemma SquareIsNonNegative(z: real)
    ensures Square(z) >= 0.0
  {}

  lemma ScoreTest(p: real, n: real, a: real, z: real, v: real, r: real, center: real, margin: real, x: real)
    requires n > 0.0 && a >= 0.0 && a * n == Square(z) && z > 0.0 && v > 0.0 && r >= 0.0 && r * r == v
    requires Square(z) * v == a * (p * (1.0 - p)) + a * a / 4.0
    requires center * (1.0 + a) == p + a / 2.0 && margin * (1.0 + a) == z * r
    ensures center - margin <= x <= center + margin <==> n * Square(x - p) <= Square(z) * (x * (1.0 - x))
  {
    var m := z * r;
    NonNegativeProduct(z, r);
    assert m * m == Square(z) * (r * r);
    InsideIsSmall(p, a, m, center, margin, x);
    var s, w := Square(x - p), x * (1.0 - x);
    OrderTimes(s, a * w, n);
    assert (a * w) * n == (a * n) * w;
  }

  /** Every refusal, exactly when its check fails first. */
  lemma RefusesExactlyWhen(successes: int, trials: int, confidence: real, lib: Numerics)
    ensures var r := WilsonInterval(successes, trials, confidence, lib);
            && (r == Err(NoObservedTrial) <==> trials <= 0)
            && (r == Err(SuccessesOutOfRange) <==> trials > 0 && !(0 <= successes <= trials))
            && (r == Err(ConfidenceOutOfRange) <==>
                 trials > 0 && 0 <= successes <= trials && !(0.0 < confidence < 1.0))
            && (r.Ok? <==> trials > 0 && 0 <= successes <= trials && 0.0 < confidence < 1.0)
  {
    hide Center, Margin;
  }

  /** With a real sample only the confidence level can be refused. */
  lemma IntervalOutcome(successes: nat, trials: nat, confidence: real, lib: Numerics)
    requires trials > 0 && successes <= trials
    ensures var r := WilsonInterval(successes, trials, confidence, lib);
            if 0.0 < confidence < 1.0 then r.Ok? else r == Err(ConfidenceOutOfRange)
  {
    hide Center, Margin;
  }

  lemma SwapCenter(p: real, q: real, n: real, z: real, lib: Numerics)
    requires n > 0.0 && q == 1.0 - p
    ensures Margin(q, n, z, lib) == Margin(p, n, z, lib)
    ensures Center(q, n, z) == 1.0 - Center(p, n, z)
  {
    SwapRadicand(p, q, n, z);
    HalfQuotient(Square(z), n);
    SwapQuotient(p, Square(z) / n, Square(z) / (2.0 * n), Denominator(n, z));
  }

  lemma SwapRadicand(p: real, q: real, n: real, z: real)
    requires n > 0.0 && q == 1.0 - p
    ensures Radicand(q, n, z) == Radicand(p, n, z)
  {
    assert q * (1.0 - q) == p * (1.0 - p);
  }

  lemma SwapQuotient(p: real, a: real, half: real, d: real)
    requires d == 1.0 + a && d >= 1.0 && half == a / 2.0
    ensures (1.0 - p + half) / d == 1.0 - (p + half) / d
  {
    var c := (p + half) / d;
    assert c * d == p + half;
    assert (1.0 - c) * d == d - c * d;
    QuotientUnique(1.0 - c, 1.0 - p + half, d);
  }

  /** Counting failures in place of successes reflects the interval about one half. */
  lemma SwapReflects(successes: nat, trials: nat, confidence: real, lib: Numerics)
    requires trials > 0 && successes <= trials && 0.0 < confidence < 1.0 && lib.Sound()
    ensures var r := WilsonInterval(successes, trials, confidence, lib);
            var s := WilsonInterval(trials - successes, trials, confidence, lib);
            && r.Ok?
            && s == Ok(Interval(1.0 - r.value.upper, 1.0 - r.value.lower))
  {
    var z := lib.quantile((1.0 + confidence) / 2.0);
    IntervalIsUnclamped(successes, trials, confidence, lib);
    IntervalIsUnclamped(trials - successes, trials, confidence, lib);
    ProportionRange(successes, trials);
    SwapCenter(
      Proportion(successes, trials), Proportion(trials - successes, trials), trials as real, z, lib);
  }
}
