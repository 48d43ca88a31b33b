/** The exact equation oracle of scripts/prepare_pprl_pilot.py, on parsed integer coefficients, and
    the verdict on a candidate answer. */
module Oracle {
  import opened Prelude
  import opened Sorting

  /** The three generator grammars: a*x + b = c*x + d, (x - center)**2 = squared, and
      sqrt(x + constant) = x - shift. */
  datatype Equation =
    | Linear(a: int, b: int, c: int, d: int)
    | Square(center: int, squared: nat)
    | Radical(constant: int, shift: int)

  datatype OracleError = Nonintegral | UnsupportedBranch | UnsupportedRadical

  ghost predicate IsRoot(r: real, y: real) { r >= 0.0 && r * r == y }

  ghost predicate Solves(e: Equation, x: real) {
    match e
    case Linear(a, b, c, d) => a as real * x + b as real == c as real * x + d as real
    case Square(center, squared) => (x - center as real) * (x - center as real) == squared as real
    case Radical(constant, shift) => IsRoot(x - shift as real, x + constant as real)
  }

  ghost predicate StrictlySorted(values: seq<int>) {
    forall i, j :: 0 <= i < j < |values| ==> values[i] < values[j]
  }

  ghost predicate Holds(values: seq<int>, x: real) {
    exists i :: 0 <= i < |values| && values[i] as real == x
  }

  /** `values` are all the real solutions, in order and without repeats. */
  ghost predicate SolutionSet(e: Equation, values: seq<int>) {
    StrictlySorted(values) && forall x: real :: Solves(e, x) <==> Holds(values, x)
  }

  /** (2 * shift + 1)**2 - 4 * (shift**2 - constant) */
  function Discriminant(constant: int, shift: int): int {
    (2 * shift + 1) * (2 * shift + 1) - 4 * (shift * shift - constant)
  }

  function Times(x: int, y: int): int { x * y }

  ghost predicate Divides(y: int, x: int) { exists k: int :: Times(k, y) == x }

  ghost predicate IsSquare(n: int) { exists k: nat :: Times(k, k) == n }

  /** The items the oracle answers. */
  ghost predicate Supported(e: Equation) {
    match e
    case Linear(a, b, c, d) => a != c && Divides(a - c, d - b)
    case Square(center, squared) => squared > 0 && IsSquare(squared)
    case Radical(constant, shift) => IsSquare(Discriminant(constant, shift))
  }

  // ----- integer arithmetic

  /** Python's `//`, which rounds towards minus infinity. */
  function FloorDiv(x: int, y: int): int
    requires y != 0
  {
    if y > 0 then x / y else (-x) / (-y)
  }

  /** Python's `%` */
  function FloorMod(x: int, y: int): int
    requires y != 0
  {
    x - y * FloorDiv(x, y)
  }

  lemma FloorModZero(x: int, y: int)
    requires y != 0
    ensures FloorMod(x, y) == 0 <==> Divides(y, x)
    ensures FloorMod(x, y) == 0 ==> Times(FloorDiv(x, y), y) == x
  {
    if Divides(y, x) {
      var k :| Times(k, y) == x;
      if y > 0 { QuotientIs(k, x, y); } else { QuotientIs(k, -x, -y); }
    }
    if FloorMod(x, y) == 0 { assert Times(FloorDiv(x, y), y) == x; }
  }

  lemma QuotientIs(k: int, x: int, y: int)
    requires y > 0 && x == k * y
    ensures x / y == k
  {
    var q, r := x / y, x % y;
    assert x == y * q + r;
    assert (k - q) * y == r;
    NoMultipleBetween(k - q, y);
  }

  lemma NoMultipleBetween(m: int, y: int)
    requires 0 <= m * y < y
    ensures m == 0
  {}

  /** `math.isqrt` */
  function ISqrt(n: nat): (s: nat)
    ensures s * s <= n < (s + 1) * (s + 1)
  {
    if n == 0 then 0
    else
      var s := ISqrt(n - 1);
      if (s + 1) * (s + 1) <= n then s + 1 else s
  }

  lemma SquareOrder(x: nat, y: nat)
    requires x <= y
    ensures x * x <= y * y
  {}

  lemma ISqrtIs(n: int, k: nat)
    requires Times(k, k) == n
    ensures n >= 0 && ISqrt(n) == k
  {
    var s := ISqrt(n);
    if k + 1 <= s { SquareOrder(k + 1, s); }
    if s + 1 <= k { SquareOrder(s + 1, k); }
  }

  lemma ISqrtFinds(n: nat)
    ensures Times(ISqrt(n), ISqrt(n)) == n <==> IsSquare(n)
  {
    if IsSquare(n) {
      var k: nat :| Times(k, k) == n;
      ISqrtIs(n, k);
    }
  }

  // ----- the linear form

  lemma LinearRoot(a: int, b: int, c: int, d: int, v: int)
    requires a != c && v * (a - c) == d - b
    ensures SolutionSet(Linear(a, b, c, d), [v])
  {
    forall x: real ensures Solves(Linear(a, b, c, d), x) <==> Holds([v], x) {
      LinearAt(a as real, b as real, c as real, d as real, v as real, x);
      CastLinear(a, b, c, d, v);
      assert [v][0] == v;
    }
  }

  lemma CastLinear(a: int, b: int, c: int, d: int, v: int)
    requires v * (a - c) == d - b
    ensures v as real * (a as real - c as real) == d as real - b as real
  {
    assert v as real * (a as real - c as real) == v as real * ((a - c) as real);
    CastProduct(v, a - c);
  }

  lemma CastProduct(x: int, y: int)
    ensures x as real * y as real == (x * y) as real
  {}

  lemma LinearAt(a: real, b: real, c: real, d: real, v: real, x: real)
    requires a != c && v * (a - c) == d - b
    ensures a * x + b == c * x + d <==> x == v
  {
    assert (x - v) * (a - c) == a * x - c * x - v * (a - c);
  }

  // ----- the square form

  lemma SquareRoots(center: int, squared: nat, k: int)
    requires k > 0 && Times(k, k) == squared
    ensures SolutionSet(Square(center, squared), [center - k, center + k])
  {
    forall x: real ensures Solves(Square(center, squared), x) <==> Holds([center - k, center + k], x) {
      CastProduct(k, k);
      EqualSquares(x - center as real, k as real);
      HoldsTwo(center - k, center + k, x);
    }
  }

  lemma EqualSquares(x: real, y: real)
    ensures x * x == y * y <==> x == y || x == -y
  {
    assert (x - y) * (x + y) == x * x - y * y;
  }

  lemma HoldsTwo(u: int, v: int, x: real)
    ensures Holds([u, v], x) <==> x == u as real || x == v as real
  {
    assert [u, v][0] == u && [u, v][1] == v;
  }

  // ----- the radical form

  lemma OddSquare(k: int)
    ensures (k * k) % 2 == k % 2
  {
    var h := k / 2;
    if k % 2 == 0 {
      assert k == 2 * h;
      assert k * k == 2 * (2 * (h * h));
    } else {
      assert k == 2 * h + 1;
      assert k * k == 2 * (2 * (h * h) + 2 * h) + 1;
    }
  }

  /** The discriminant is odd, so both numerators of the quadratic formula are even: the parity
      test of the loop drops nothing. */
  lemma ParityDropsNothing(constant: int, shift: int, k: int)
    requires Times(k, k) == Discriminant(constant, shift)
    ensures FloorMod(2 * shift + 1 - k, 2) == 0 && FloorMod(2 * shift + 1 + k, 2) == 0
  {
    hide *;
    DiscriminantIs(constant, shift);
    OddRoot(k, constant + shift);
    OddSums(shift, k);
  }

  lemma OddRoot(k: int, e: int)
    requires Times(k, k) == 4 * e + 1
    ensures k % 2 == 1
  {
    OddSquare(k);
  }

  lemma OddSums(shift: int, k: int)
    requires k % 2 == 1
    ensures FloorMod(2 * shift + 1 - k, 2) == 0 && FloorMod(2 * shift + 1 + k, 2) == 0
  {}

  lemma DiscriminantIs(constant: int, shift: int)
    ensures Discriminant(constant, shift) == 4 * (constant + shift) + 1
    ensures Discriminant(constant, shift) % 2 == 1
  {
    assert (2 * shift + 1) * (2 * shift + 1) == 4 * (shift * shift) + 4 * shift + 1;
    OddIs(Discriminant(constant, shift), constant + shift);
  }

  lemma OddIs(d: int, e: int)
    requires d == 4 * e + 1
    ensures d % 2 == 1
  {}

  /** What the loop tests of a candidate root. */
  predicate Accepted(constant: int, shift: int, value: int) {
    value >= shift && value + constant == (value - shift) * (value - shift)
  }

  lemma AcceptedSolves(constant: int, shift: int, value: int)
    ensures Accepted(constant, shift, value) <==> Solves(Radical(constant, shift), value as real)
  {
    CastProduct(value - shift, value - shift);
    assert (value - shift) as real == value as real - shift as real;
  }

  /** Every real solution is one of the two roots of the squared equation. */
  lemma SolutionIsRoot(constant: int, shift: int, k: int, x: real)
    requires Times(k, k) == Discriminant(constant, shift)
    requires Solves(Radical(constant, shift), x)
    ensures 2.0 * x == (2 * shift + 1 - k) as real || 2.0 * x == (2 * shift + 1 + k) as real
  {
    hide *;
    SquaredEquation(constant, shift, x);
    CompleteSquare(constant as real, shift as real, x);
    DiscriminantIs(constant, shift);
    CastDiscriminant(constant + shift, k);
    EqualSquares(2.0 * x - (2.0 * shift as real + 1.0), k as real);
    CastRoots(shift, k, x);
  }

  lemma SquaredEquation(constant: int, shift: int, x: real)
    requires Solves(Radical(constant, shift), x)
    ensures (x - shift as real) * (x - shift as real) == x + constant as real
  {}

  lemma CastDiscriminant(e: int, k: int)
    requires Times(k, k) == 4 * e + 1
    ensures k as real * k as real == 4.0 * (e as real) + 1.0
  {
    CastProduct(k, k);
  }

  lemma CastRoots(shift: int, k: int, x: real)
    requires var y := 2.0 * x - (2.0 * shift as real + 1.0); y == k as real || y == -(k as real)
    ensures 2.0 * x == (2 * shift + 1 - k) as real || 2.0 * x == (2 * shift + 1 + k) as real
  {}

  lemma CompleteSquare(c: real, s: real, x: real)
    requires (x - s) * (x - s) == x + c
    ensures (2.0 * x - (2.0 * s + 1.0)) * (2.0 * x - (2.0 * s + 1.0)) == 4.0 * (c + s) + 1.0
  {
    assert (2.0 * x - (2.0 * s + 1.0)) * (2.0 * x - (2.0 * s + 1.0))
        == 4.0 * ((x - s) * (x - s)) - 4.0 * (x - s) + 1.0;
  }

  /** The second conjunct of the test never fails: only roots below the shift are extraneous. */
  lemma RootSatisfiesSquare(constant: int, shift: int, k: int, value: int)
    requires Times(k, k) == Discriminant(constant, shift)
    requires 2 * value == 2 * shift + 1 - k || 2 * value == 2 * shift + 1 + k
    ensures Accepted(constant, shift, value) <==> value >= shift
  {
    hide Discriminant;
    DiscriminantIs(constant, shift);
    SquareFromRoot(value - shift, constant + shift, k);
  }

  lemma SquareFromRoot(w: int, e: int, k: int)
    requires Times(k, k) == 4 * e + 1 && (2 * w == 1 - k || 2 * w == 1 + k)
    ensures w + e == w * w
  {
    assert Times(2 * w - 1, 2 * w - 1) == Times(k, k);
    assert Times(2 * w - 1, 2 * w - 1) == 4 * (w * w) - 4 * w + 1;
  }

  function ByValue(): int -> real { (v: int) => v as real }

  /** `set(values)`, listed by first occurrence. */
  function Distinct(values: seq<int>): (r: seq<int>)
    ensures NoRepeats(r) && (forall v :: v in r <==> v in values) && |r| <= |values|
  {
    if values == [] then []
    else
      var n := |values| - 1;
      assert values == values[..n] + [values[n]];
      var rest := Distinct(values[..n]);
      if values[n] in rest then rest else rest + [values[n]]
  }

  /** `tuple(sorted(set(values)))` */
  function SortedSet(values: seq<int>): (r: seq<int>)
    ensures StrictlySorted(r) && (forall v :: v in r <==> v in values) && |r| <= |values|
  {
    SortedDistinct(Distinct(values));
    SortBy(Distinct(values), ByValue())
  }

  lemma SortedDistinct(s: seq<int>)
    requires NoRepeats(s)
    ensures var r := SortBy(s, ByValue());
            StrictlySorted(r) && (forall v :: v in r <==> v in s) && |r| == |s|
  {
    hide *;
    var r := SortBy(s, ByValue());
    PermutedMembers(r, s);
    assert |r| == |multiset(r)| == |multiset(s)| == |s|;
    forall v ensures multiset(r)[v] <= 1 {
      NoRepeatsOnce(s, v);
    }
    OnceEach(r);
  }

  lemma OnceEach(r: seq<int>)
    requires Ordered(r, ByValue()) && forall v :: multiset(r)[v] <= 1
    ensures StrictlySorted(r)
  {
    forall i, j | 0 <= i < j < |r| ensures r[i] < r[j] {
      assert r == r[..j] + [r[j]] + r[j + 1..];
      assert ByValue()(r[i]) <= ByValue()(r[j]);
      assert r[i] in r[..j] && multiset(r)[r[i]] <= 1;
    }
  }

  lemma RootsAreSolutions(constant: int, shift: int, k: int, roots: seq<int>)
    requires Times(k, k) == Discriminant(constant, shift)
    requires forall v :: v in roots <==>
      Accepted(constant, shift, v) && (2 * v == 2 * shift + 1 - k || 2 * v == 2 * shift + 1 + k)
    ensures SolutionSet(Radical(constant, shift), SortedSet(roots))
  {
    var r := SortedSet(roots);
    ParityDropsNothing(constant, shift, k);
    var low, high := FloorDiv(2 * shift + 1 - k, 2), FloorDiv(2 * shift + 1 + k, 2);
    forall x: real ensures Solves(Radical(constant, shift), x) <==> Holds(r, x) {
      if Solves(Radical(constant, shift), x) {
        SolutionIsRoot(constant, shift, k, x);
        var v := if x == low as real then low else high;
        AcceptedSolves(constant, shift, v);
        assert v in roots;
        assert v in r;
      }
      if Holds(r, x) {
        var i :| 0 <= i < |r| && r[i] as real == x;
        assert r[i] in roots;
        AcceptedSolves(constant, shift, r[i]);
      }
    }
  }

  // ----- the oracle

  /** `oracle`: answers exactly the supported items, with all their real solutions. */
  method Solve(e: Equation) returns (r: Result<seq<int>, OracleError>)
    ensures r.Ok? <==> Supported(e)
    ensures r.Ok? ==> SolutionSet(e, r.value)
    ensures r.Err? ==>
      r.error == (match e case Linear(_, _, _, _) => Nonintegral case Square(_, _) => UnsupportedBranch
                          case Radical(_, _) => UnsupportedRadical)
  {
    match e
    case Linear(a, b, c, d) =>
      if a == c { return Err(Nonintegral); }
      FloorModZero(d - b, a - c);
      if FloorMod(d - b, a - c) != 0 { return Err(Nonintegral); }
      LinearRoot(a, b, c, d, FloorDiv(d - b, a - c));
      r := Ok([FloorDiv(d - b, a - c)]);
    case Square(center, squared) =>
      var distance := ISqrt(squared);
      ISqrtFinds(squared);
      if distance * distance != squared || distance == 0 { return Err(UnsupportedBranch); }
      SquareRoots(center, squared, distance);
      r := Ok([center - distance, center + distance]);
    case Radical(constant, shift) =>
      var discriminant := Discriminant(constant, shift);
      if discriminant < 0 { return Err(UnsupportedRadical); }
      var square := ISqrt(discriminant);
      ISqrtFinds(discriminant);
      if square * square != discriminant { return Err(UnsupportedRadical); }
      var roots := RadicalRoots(constant, shift, square);
      RootsAreSolutions(constant, shift, square, roots);
      r := Ok(SortedSet(roots));
  }

  /** The loop over the two numerators of the quadratic formula. */
  method RadicalRoots(constant: int, shift: int, square: nat) returns (roots: seq<int>)
    requires Times(square, square) == Discriminant(constant, shift)
    ensures forall v :: v in roots <==>
      Accepted(constant, shift, v) && (2 * v == 2 * shift + 1 - square || 2 * v == 2 * shift + 1 + square)
  {
    hide Accepted, Discriminant, Times;
    var numerators := [2 * shift + 1 - square, 2 * shift + 1 + square];
    ParityDropsNothing(constant, shift, square);
    roots := [];
    for i := 0 to 2
      invariant forall v :: v in roots <==>
        Accepted(constant, shift, v) && exists j :: 0 <= j < i && 2 * v == numerators[j]
    {
      if FloorMod(numerators[i], 2) == 0 {
        var value := FloorDiv(numerators[i], 2);
        if Accepted(constant, shift, value) {
          roots := roots + [value];
        }
      }
    }
    assert numerators[0] == 2 * shift + 1 - square && numerators[1] == 2 * shift + 1 + square;
  }

  // ----- the verdict

  datatype Verdict = Malformed | Correct(slot: nat, values: seq<int>) | Incorrect(slot: nat, values: seq<int>)

  /** The shape a parsed candidate must have: one or two different values of at most 100. */
  predicate WellFormed(values: seq<int>) {
    && 1 <= |values| <= 2
    && (forall i :: 0 <= i < |values| ==> -100 <= values[i] <= 100)
    && forall i, j :: 0 <= i < j < |values| ==> values[i] != values[j]
  }

  /** Well formed, and the values are all the real solutions. */
  ghost predicate Answers(e: Equation, values: seq<int>) {
    && WellFormed(values) && Supported(e)
    && forall x: real :: Solves(e, x) <==> Holds(values, x)
  }

  lemma HoldsAsMember(values: seq<int>, v: int)
    ensures Holds(values, v as real) <==> v in values
  {
    if v in values {
      var i :| 0 <= i < |values| && values[i] == v;
      assert values[i] as real == v as real;
    }
  }

  /** Strictly sorted sequences with the same members are the same. */
  lemma SortedUnique(a: seq<int>, b: seq<int>)
    requires StrictlySorted(a) && StrictlySorted(b)
    requires forall v :: v in a <==> v in b
    ensures a == b
  {
    forall v ensures v in a <==> v in b {}
    SameElements(a, b);
    assert Ordered(a, ByValue()) && Ordered(b, ByValue());
    assert DistinctKeys(a, ByValue());
    OrderedUnique(a, b, ByValue());
  }

  lemma SameSolutions(e: Equation, values: seq<int>, solutions: seq<int>)
    requires SolutionSet(e, solutions)
    ensures SortedSet(values) == solutions <==> forall x: real :: Solves(e, x) <==> Holds(values, x)
  {
    var sorted := SortedSet(values);
    if sorted == solutions {
      forall x: real ensures Holds(solutions, x) <==> Holds(values, x) {
        SameMembersHold(solutions, values, x);
      }
    }
    if forall x: real :: Solves(e, x) <==> Holds(values, x) {
      forall v ensures v in sorted <==> v in solutions {
        HoldsAsMember(values, v);
        HoldsAsMember(solutions, v);
        assert Solves(e, v as real) <==> Holds(values, v as real);
      }
      SortedUnique(sorted, solutions);
    }
  }

  lemma SameMembersHold(a: seq<int>, b: seq<int>, x: real)
    requires forall v :: v in a <==> v in b
    ensures Holds(a, x) <==> Holds(b, x)
  {
    if i :| 0 <= i < |a| && a[i] as real == x { assert a[i] in b; }
    if i :| 0 <= i < |b| && b[i] as real == x { assert b[i] in a; }
  }

  lemma WellFormedMeans(values: seq<int>)
    ensures WellFormed(values) <==>
      && values != [] && |values| <= 2 && (forall v :: v in values ==> -100 <= v <= 100)
      && |set v | v in values| == |values|
    ensures |set v | v in values| <= |values|
  {
    SizeOfSet(values);
    if forall v :: v in values ==> -100 <= v <= 100 {
      forall i | 0 <= i < |values| ensures -100 <= values[i] <= 100 { assert values[i] in values; }
    }
    assert NoRepeats(values) <==> forall i, j :: 0 <= i < j < |values| ==> values[i] != values[j];
  }

  /** `verify_candidate` after parsing: correct exactly when the answer is all the real solutions.
      An item the oracle cannot answer is an error of the infrastructure, never a verdict. */
  method VerifyCandidate(slot: int, values: seq<int>, questions: seq<Equation>)
      returns (r: Result<Verdict, OracleError>)
    ensures !(0 <= slot < |questions| && WellFormed(values)) <==> r == Ok(Malformed)
    ensures r == Ok(Malformed) <==>
      || !(0 <= slot < |questions|) || values == [] || |values| > 2
      || (exists v :: v in values && !(-100 <= v <= 100)) || |set v | v in values| < |values|
    ensures r.Err? <==> 0 <= slot < |questions| && WellFormed(values) && !Supported(questions[slot])
    ensures r.Ok? && r.value.Correct? <==> 0 <= slot < |questions| && Answers(questions[slot], values)
    ensures r.Ok? && !r.value.Malformed? ==> r.value.slot == slot && r.value.values == SortedSet(values)
  {
    WellFormedMeans(values);
    if !(0 <= slot < |questions|) || !WellFormed(values) { return Ok(Malformed); }
    var numbers := SortedSet(values);
    var solutions := Solve(questions[slot]);
    if solutions.Err? { return Err(solutions.error); }
    SameSolutions(questions[slot], values, solutions.value);
    r := Ok(if numbers == solutions.value then Correct(slot, numbers) else Incorrect(slot, numbers));
  }

  // ----- the solutions in closed form

  /** Of the two roots of the squared equation the lower is extraneous unless the discriminant is
      1, and the higher never is. */
  lemma ExtraneousRoot(constant: int, shift: int, k: nat, low: int, high: int)
    requires Times(k, k) == Discriminant(constant, shift)
    requires 2 * low == 2 * shift + 1 - k && 2 * high == 2 * shift + 1 + k
    ensures Accepted(constant, shift, low) <==> k == 1
    ensures Accepted(constant, shift, high)
  {
    hide Accepted;
    RootSatisfiesSquare(constant, shift, k, low);
    RootSatisfiesSquare(constant, shift, k, high);
  }

  /** The solutions of a supported item, from its coefficients. */
  function Solutions(e: Equation): seq<int>
    requires e.Linear? ==> e.a != e.c
    requires e.Radical? ==> Discriminant(e.constant, e.shift) >= 0
  {
    match e
    case Linear(a, b, c, d) => [FloorDiv(d - b, a - c)]
    case Square(center, squared) => [center - ISqrt(squared), center + ISqrt(squared)]
    case Radical(constant, shift) =>
      var k := ISqrt(Discriminant(constant, shift));
      if k == 1 then [shift, shift + 1] else [shift + (k + 1) / 2]
  }

  lemma RadicalSolutions(constant: int, shift: int, k: nat)
    requires Times(k, k) == Discriminant(constant, shift)
    ensures SolutionSet(Radical(constant, shift), if k == 1 then [shift, shift + 1] else [shift + (k + 1) / 2])
  {
    hide *;
    DiscriminantIs(constant, shift);
    OddRoot(k, constant + shift);
    var low, high := Halves(shift, k);
    ExtraneousRoot(constant, shift, k, low, high);
    var roots := if k == 1 then [low, high] else [high];
    forall v ensures v in roots <==> Accepted(constant, shift, v) && (2 * v == 2 * low || 2 * v == 2 * high) {}
    RootsAreSolutions(constant, shift, k, roots);
    ShortSorted(low, high);
    SortedUnique(SortedSet(roots), roots);
  }

  lemma Halves(shift: int, k: nat) returns (low: int, high: int)
    requires k % 2 == 1
    ensures 2 * low == 2 * shift + 1 - k && 2 * high == 2 * shift + 1 + k
    ensures low < high && high == shift + (k + 1) / 2 && (k == 1 ==> low == shift)
  {
    low, high := shift - k / 2, shift + (k + 1) / 2;
  }

  lemma ShortSorted(u: int, v: int)
    requires u < v
    ensures StrictlySorted([v]) && StrictlySorted([u, v])
  {}

  /** A supported item has a solution, and its solutions are known from its coefficients. */
  lemma SupportedHasSolution(e: Equation)
    requires Supported(e)
    ensures e.Linear? ==> e.a != e.c
    ensures e.Radical? ==> Discriminant(e.constant, e.shift) >= 0
    ensures SolutionSet(e, Solutions(e))
    ensures exists x: real :: Solves(e, x)
  {
    hide SolutionSet, Solves, Holds, ISqrt, FloorDiv, Times, Discriminant;
    match e
    case Linear(a, b, c, d) =>
      FloorModZero(d - b, a - c);
      LinearSolution(a, b, c, d, FloorDiv(d - b, a - c));
      FirstSolves(e, Solutions(e));
    case Square(center, squared) =>
      var k: nat :| Times(k, k) == squared;
      ISqrtIs(squared, k);
      PositiveRoot(squared, k);
      SquareRoots(center, squared, k);
      FirstSolves(e, [center - k, center + k]);
    case Radical(constant, shift) =>
      var k: nat :| Times(k, k) == Discriminant(constant, shift);
      ISqrtIs(Discriminant(constant, shift), k);
      RadicalSolutions(constant, shift, k);
      FirstSolves(e, Solutions(e));
  }

  lemma LinearSolution(a: int, b: int, c: int, d: int, v: int)
    requires a != c && Times(v, a - c) == d - b
    ensures SolutionSet(Linear(a, b, c, d), [v])
  {
    LinearRoot(a, b, c, d, v);
  }

  lemma PositiveRoot(squared: int, k: nat)
    requires squared > 0 && Times(k, k) == squared
    ensures k > 0
  {}

  lemma FirstSolves(e: Equation, values: seq<int>)
    requires SolutionSet(e, values) && values != []
    ensures exists x: real :: Solves(e, x)
  {
    assert Holds(values, values[0] as real);
  }

  /** The solutions stay within the bound on answers, decided on the coefficients. */
  predicate AnswersFit(e: Equation) {
    match e
    case Linear(a, b, c, d) => a != c && -100 <= FloorDiv(d - b, a - c) <= 100
    case Square(center, squared) => -100 <= center - ISqrt(squared) && center + ISqrt(squared) <= 100
    case Radical(constant, shift) =>
      Discriminant(constant, shift) >= 0
      && var k := ISqrt(Discriminant(constant, shift));
         -100 <= shift + (k + 1) / 2 <= 100 && (k == 1 ==> shift >= -100)
  }

  /** Some answer is judged correct exactly when the oracle supports the item and its solutions stay
      within the bound on answers. */
  lemma Answerable(e: Equation)
    ensures (exists values :: Answers(e, values)) <==> Supported(e) && AnswersFit(e)
  {
    hide Supported, AnswersFit, Solves;
    if Supported(e) {
      SupportedHasSolution(e);
      FitsSolutions(e);
      if values :| Answers(e, values) {
        SameAnswers(e, values, Solutions(e));
      }
      if AnswersFit(e) { assert Answers(e, Solutions(e)); }
    }
  }

  lemma FitsSolutions(e: Equation)
    requires Supported(e)
    requires e.Linear? ==> e.a != e.c
    requires e.Radical? ==> Discriminant(e.constant, e.shift) >= 0
    ensures AnswersFit(e) <==> WellFormed(Solutions(e))
  {
    hide WellFormed, ISqrt, FloorDiv, Times, Discriminant;
    match e
    case Linear(a, b, c, d) =>
      OneWellFormed(FloorDiv(d - b, a - c));
    case Square(center, squared) =>
      var k: nat :| Times(k, k) == squared;
      ISqrtIs(squared, k);
      PositiveRoot(squared, k);
      TwoWellFormed(center - k, center + k);
    case Radical(constant, shift) =>
      OneWellFormed(shift + (ISqrt(Discriminant(constant, shift)) + 1) / 2);
      TwoWellFormed(shift, shift + 1);
  }

  lemma OneWellFormed(v: int)
    ensures WellFormed([v]) <==> -100 <= v <= 100
  {
    assert [v][0] == v;
  }

  lemma TwoWellFormed(u: int, v: int)
    ensures WellFormed([u, v]) <==> -100 <= u <= 100 && -100 <= v <= 100 && u != v
  {
    assert [u, v][0] == u && [u, v][1] == v;
  }

  lemma SameAnswers(e: Equation, values: seq<int>, solutions: seq<int>)
    requires Answers(e, values) && SolutionSet(e, solutions)
    ensures forall i :: 0 <= i < |solutions| ==> -100 <= solutions[i] <= 100
  {
    forall i | 0 <= i < |solutions| ensures -100 <= solutions[i] <= 100 {
      assert Holds(solutions, solutions[i] as real);
      assert Solves(e, solutions[i] as real);
      assert Holds(values, solutions[i] as real);
    }
  }

  /** x = 101 is supported, and no answer to it is ever judged correct. */
  lemma SupportedUnanswerable()
    ensures var e := Linear(1, 0, 0, 101);
            && Supported(e) && Solves(e, 101.0)
            && forall values :: !Answers(e, values)
  {
    var e := Linear(1, 0, 0, 101);
    assert Times(101, 1) == 101;
    assert Supported(e);
    Answerable(e);
  }
}
