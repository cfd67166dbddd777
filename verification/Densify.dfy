/** The seeded linear congruential generator the cloud densifier draws from
    (frontend/dev/densifyCloud.ts). The arithmetic is over exact integers. */
module CongruentialGenerator {
  const MULTIPLIER: nat := 1664525
  const INCREMENT: nat := 1013904223
  const MODULUS: nat := 4294967296
  // Every integer below this bound is a double, so arithmetic below it is exact there.
  const EXACT_INTEGERS: nat := 9007199254740992

  function Next(state: nat): nat {
    (state * MULTIPLIER + INCREMENT) % MODULUS
  }

  function Iterate(n: nat, state: nat): nat {
    if n == 0 then state else Next(Iterate(n - 1, state))
  }

  /** The remainder that keeps its dividend's sign. */
  function Remainder(x: int, m: nat): (r: int)
    requires m > 0
    ensures r < m && 0 - r < m && (x >= 0 ==> r == x % m)
  {
    if x >= 0 then x % m else -((-x) % m)
  }

  /** The states any seed leads to. */
  predicate Possible(state: int) {
    state < MODULUS && 0 - state < MODULUS
  }

  /** One step from any seed's state, a negative seed's being negative. */
  function Step(state: int): (next: int)
    ensures Possible(next) && (state >= 0 ==> next == Next(state))
  {
    Remainder(state * MULTIPLIER + INCREMENT, MODULUS)
  }

  function Stepped(n: nat, state: int): int {
    if n == 0 then state else Step(Stepped(n - 1, state))
  }

  /** What a state is drawn as. */
  function Fraction(state: int): real {
    state as real / MODULUS as real
  }

  /** The n-th draw from a state. */
  function DrawAt(n: nat, state: int): real {
    Fraction(Stepped(n, state))
  }

  /** From a state that is not negative, every draw is that of the generator over its 2^32 states. */
  lemma {:induction false} StepsAreIterations(n: nat, state: nat)
    ensures Stepped(n, state) == Iterate(n, state)
  {
    if n > 0 {
      StepsAreIterations(n - 1, state);
    }
  }

  lemma {:induction false} StepsInTurn(m: nat, n: nat, state: int)
    ensures Stepped(m + n, state) == Stepped(m, Stepped(n, state))
  {
    if m > 0 {
      StepsInTurn(m - 1, n, state);
    }
  }

  lemma {:induction false} StepsStayBelowTheModulus(n: nat, state: int)
    requires Possible(state)
    ensures Possible(Stepped(n, state))
  {
    if n > 0 {
      StepsStayBelowTheModulus(n - 1, state);
    }
  }

  lemma StatesStayNonnegative(n: nat, state: int)
    requires Possible(state) && Step(state) >= 0 && n > 0
    ensures Stepped(n, state) >= 0
  {
    StepsInTurn(n - 1, 1, state);
    assert Stepped(1, state) == Step(Stepped(0, state)) == Step(state);
    StepsAreIterations(n - 1, Step(state));
  }

  /** Every draw lies in [0, 1) exactly when the first state drawn is not negative. */
  lemma DrawsFollowTheFirst(state: int)
    requires Possible(state)
    ensures (forall n: nat :: n > 0 ==> 0.0 <= DrawAt(n, state) < 1.0) <==> Step(state) >= 0
    ensures DrawAt(1, state) < 0.0 <==> Step(state) < 0
  {
    assert Stepped(1, state) == Step(Stepped(0, state)) == Step(state);
    FractionOfTheModulus(Step(state));
    if Step(state) >= 0 {
      hide Step, Stepped;
      forall n: nat | n > 0
        ensures 0.0 <= DrawAt(n, state) < 1.0
      {
        StatesStayNonnegative(n, state);
        StepsStayBelowTheModulus(n, state);
        FractionOfTheModulus(Stepped(n, state));
      }
    } else {
      assert DrawAt(1, state) < 0.0;
    }
  }

  lemma FractionOfTheModulus(state: int)
    requires Possible(state)
    ensures -1.0 < Fraction(state) < 1.0
    ensures 0.0 <= Fraction(state) <==> state >= 0
  {
  }

  predicate IsExact(x: int) {
    x < EXACT_INTEGERS && 0 - x < EXACT_INTEGERS
  }

  class Random {
    var state: int

    ghost predicate Valid()
      reads this
    {
      Possible(state)
    }

    constructor (seed: int)
      ensures Valid() && state == Remainder(seed, MODULUS)
    {
      state := Remainder(seed, MODULUS);
    }

    /** One draw. The product never leaves the integers a double holds exactly. */
    method Draw() returns (draw: real)
      requires Valid()
      modifies this
      ensures Valid() && state == Step(old(state))
      ensures IsExact(old(state) * MULTIPLIER + INCREMENT)
      ensures draw == Fraction(state) == DrawAt(1, old(state))
      ensures old(state) >= 0 ==> 0.0 <= draw < 1.0
    {
      hide Fraction;
      FractionOfTheModulus(Step(state));
      assert Stepped(1, state) == Step(Stepped(0, state));
      state := Step(state);
      draw := Fraction(state);
    }
  }

  // The sum 1 + a + ... + a^(n-1) of the multiplier's powers.
  function Geometric(n: nat): nat {
    if n == 0 then 0 else MULTIPLIER * Geometric(n - 1) + 1
  }

  function Pow2(e: nat): (p: nat)
    ensures p > 0
  {
    if e == 0 then 1 else 2 * Pow2(e - 1)
  }

  lemma ModulusIsAPowerOfTwo()
    ensures Pow2(32) == MODULUS
  {
    assert Pow2(8) == 256;
    assert Pow2(16) == 65536;
    assert Pow2(24) == 16777216;
  }

  // How far one trip of `n` steps moves a state, before it is reduced.
  function Drift(state: nat): nat {
    (MULTIPLIER - 1) * state + INCREMENT
  }

  lemma {:induction false} ModStep(x: nat, m: nat, a: nat, c: nat)
    requires m > 0
    ensures (x % m * a + c) % m == (x * a + c) % m
  {
    var q, r := x / m, x % m;
    assert x == q * m + r;
    assert x * a + c == (r * a + c) + (q * a) * m;
    ModAddMultiple(r * a + c, q * a, m);
  }

  lemma {:induction false} ModAddMultiple(x: nat, k: nat, m: nat)
    requires m > 0
    ensures (x + k * m) % m == x % m
  {
    if k > 0 {
      ModAddMultiple(x, k - 1, m);
      assert x + k * m == (x + (k - 1) * m) + m;
      assert (x + (k - 1) * m + m) % m == (x + (k - 1) * m) % m by {
        var y := x + (k - 1) * m;
        assert y == y / m * m + y % m;
        assert y + m == (y / m + 1) * m + y % m;
        DivModUnique(y + m, y / m + 1, y % m, m);
      }
    }
  }

  lemma MulMonotone(a: nat, b: nat, m: nat)
    requires a <= b
    ensures a * m <= b * m
  {
    assert b * m - a * m == (b - a) * m;
  }

  lemma DivModUnique(x: nat, q: nat, r: nat, m: nat)
    requires m > 0 && r < m && x == q * m + r
    ensures x % m == r
  {
    var q' := x / m;
    assert x == m * q' + x % m;
    if q > q' {
      MulMonotone(q' + 1, q, m);
    } else if q < q' {
      MulMonotone(q + 1, q', m);
    }
  }

  lemma DriftStep(a: nat, state: nat, d: nat, g: nat, c: nat)
    requires a > 0 && d == (a - 1) * state + c
    ensures (state + d * g) * a + c == state + d * (a * g + 1)
  {
    assert (state + d * g) * a == state * a + d * g * a;
    assert d * (a * g + 1) == d * (a * g) + d;
    assert d * g * a == d * (a * g);
  }

  lemma {:induction false} IterateClosedForm(n: nat, state: nat)
    requires state < MODULUS
    ensures Iterate(n, state) == (state + Drift(state) * Geometric(n)) % MODULUS
  {
    if n > 0 {
      IterateClosedForm(n - 1, state);
      var g, d := Geometric(n - 1), Drift(state);
      ModStep(state + d * g, MODULUS, MULTIPLIER, INCREMENT);
      DriftStep(MULTIPLIER, state, d, g, INCREMENT);
    }
  }

  /** Whether 2^e divides x, read one factor of two at a time. */
  predicate TwosDivide(e: nat, x: nat) {
    e == 0 || (x % 2 == 0 && TwosDivide(e - 1, x / 2))
  }

  lemma DoubledFactor(q: nat, p: nat)
    ensures q * (2 * p) == 2 * (q * p)
  {
  }

  lemma {:induction false} TwosDivideMultiples(e: nat, q: nat)
    ensures TwosDivide(e, q * Pow2(e))
  {
    if e > 0 {
      DoubledFactor(q, Pow2(e - 1));
      TwosDivideMultiples(e - 1, q);
    }
  }

  lemma {:induction false} TwosDivideOnlyMultiples(e: nat, x: nat) returns (q: nat)
    requires TwosDivide(e, x)
    ensures x == q * Pow2(e)
  {
    if e == 0 {
      q := x;
    } else {
      q := TwosDivideOnlyMultiples(e - 1, x / 2);
      DoubledFactor(q, Pow2(e - 1));
    }
  }

  lemma TwosDivideIsDivisibility(e: nat, x: nat)
    ensures TwosDivide(e, x) <==> x % Pow2(e) == 0
  {
    hide *;
    var p := Pow2(e);
    if TwosDivide(e, x) {
      var q := TwosDivideOnlyMultiples(e, x);
      DivModUnique(x, q, 0, p);
    }
    if x % p == 0 {
      TwosDivideMultiples(e, x / p);
      assert x == (x / p) * p;
    }
  }

  function OddTimes(x: nat, half: nat): nat {
    x * (2 * half + 1)
  }

  lemma OddTimesParity(x: nat, half: nat)
    ensures OddTimes(x, half) % 2 == x % 2
  {
    var p := x * half;
    assert OddTimes(x, half) == 2 * p + x;
  }

  lemma OddTimesDoubles(x: nat, half: nat)
    ensures OddTimes(2 * x, half) == 2 * OddTimes(x, half)
  {
  }

  lemma {:induction false} OddFactorChangesNothing(e: nat, x: nat, half: nat)
    ensures TwosDivide(e, OddTimes(x, half)) <==> TwosDivide(e, x)
  {
    OddTimesParity(x, half);
    hide OddTimes;
    if e > 0 && x % 2 == 0 {
      var y := x / 2;
      assert x == 2 * y;
      OddTimesDoubles(y, half);
      OddFactorChangesNothing(e - 1, y, half);
    }
  }

  lemma OddTimesCommutes(x: nat, half: nat)
    ensures OddTimes(x, half) == (2 * half + 1) * x == x * (2 * half + 1)
  {
  }

  lemma SumStep(a: nat, g: nat, k: nat)
    requires a > 0
    ensures a * (g + ((a - 1) * g + 1) * k) + 1 == (a * g + 1) + ((a - 1) * (a * g + 1) + 1) * k
  {
    var rate := (a - 1) * g + 1;
    assert (a - 1) * (a * g + 1) + 1 == a * rate by {
      assert (a - 1) * (a * g + 1) == a * ((a - 1) * g) + (a - 1);
    }
    assert a * (g + rate * k) == a * g + a * rate * k;
  }

  lemma {:induction false} GeometricOfSum(m: nat, n: nat)
    ensures Geometric(m + n) == Geometric(m) + ((MULTIPLIER - 1) * Geometric(m) + 1) * Geometric(n)
  {
    if m > 0 {
      GeometricOfSum(m - 1, n);
      SumStep(MULTIPLIER, Geometric(m - 1), Geometric(n));
    }
  }

  lemma DoubledSum(k: nat, g: nat)
    ensures g + (4 * k * g + 1) * g == 2 * (g * (2 * (k * g) + 1))
  {
  }

  lemma OddStep(x: nat, g: nat)
    requires x == 1664525 * g + 1
    ensures x % 2 == 1 - g % 2
  {
    var q := g / 2;
    if g % 2 == 0 {
      DoubleOf(x, 1664525 * q, 1);
    } else {
      DoubleOf(x, 1664525 * q + 832263, 0);
    }
  }

  lemma DoubleOf(x: nat, half: nat, r: nat)
    requires x == 2 * half + r && r < 2
    ensures x % 2 == r
  {
  }

  lemma {:induction false} GeometricParity(n: nat)
    ensures Geometric(n) % 2 == n % 2
  {
    if n > 0 {
      GeometricParity(n - 1);
      OddStep(Geometric(n), Geometric(n - 1));
    }
  }

  lemma {:induction false} GeometricHoldsTheTwosOfItsLength(e: nat, n: nat)
    ensures TwosDivide(e, Geometric(n)) <==> TwosDivide(e, n)
  {
    GeometricParity(n);
    if e > 0 && n % 2 == 0 {
      var h := n / 2;
      var g := Geometric(h);
      GeometricOfSum(h, h);
      // The multiplier stands 1 past a multiple of 4.
      assert MULTIPLIER - 1 == 4 * 416131;
      DoubledSum(416131, g);
      OddFactorChangesNothing(e - 1, g, 416131 * g);
      OddTimesCommutes(g, 416131 * g);
      GeometricHoldsTheTwosOfItsLength(e - 1, h);
    }
  }

  lemma {:induction false} IterateTakesTurns(m: nat, n: nat, state: nat)
    ensures Iterate(m + n, state) == Iterate(m, Iterate(n, state))
  {
    if m > 0 {
      IterateTakesTurns(m - 1, n, state);
    }
  }

  lemma {:induction false} IterateStaysBelowTheModulus(n: nat, state: nat)
    requires state < MODULUS
    ensures Iterate(n, state) < MODULUS
  {
  }

  lemma DriftingByMultiplesAlone(state: nat, x: nat, m: nat)
    requires state < m
    ensures (state + x) % m == state <==> x % m == 0
  {
    if x % m == 0 {
      var k := x / m;
      assert x == m * k + 0;
      DivModUnique(state + x, k, state, m);
    }
    if (state + x) % m == state {
      var k := (state + x) / m;
      assert state + x == m * k + state;
      DivModUnique(x, k, 0, m);
    }
  }

  lemma DriftIsOdd(state: nat) returns (half: nat)
    ensures Drift(state) == 2 * half + 1
  {
    half := 832262 * state + 506952111;
  }

  lemma ReturnsExactlyEveryModulus(n: nat, state: nat)
    requires state < MODULUS
    ensures Iterate(n, state) == state <==> n % MODULUS == 0
  {
    hide *;
    var q, g := Drift(state), Geometric(n);
    IterateClosedForm(n, state);
    DriftingByMultiplesAlone(state, q * g, MODULUS);
    var half := DriftIsOdd(state);
    OddTimesCommutes(g, half);
    assert q * g == OddTimes(g, half);
    ModulusIsAPowerOfTwo();
    TwosDivideIsDivisibility(32, q * g);
    TwosDivideIsDivisibility(32, n);
    OddFactorChangesNothing(32, g, half);
    GeometricHoldsTheTwosOfItsLength(32, n);
  }

  /** Full period: from any state, two draws leave the generator in the same state
      exactly when they stand a whole number of 2^32 draws apart. */
  lemma FullPeriod(i: nat, j: nat, state: nat)
    requires state < MODULUS && i <= j
    ensures Iterate(i, state) == Iterate(j, state) <==> (j - i) % MODULUS == 0
  {
    IterateTakesTurns(j - i, i, state);
    IterateStaysBelowTheModulus(i, state);
    ReturnsExactlyEveryModulus(j - i, Iterate(i, state));
  }

  lemma OnePeriodLeadsBack(state: nat)
    requires state < MODULUS
    ensures Iterate(MODULUS - 1, Next(state)) == state
  {
    assert Iterate(1, state) == Next(Iterate(0, state)) == Next(state);
    hide *;
    ReturnsExactlyEveryModulus(MODULUS, state);
    IterateTakesTurns(MODULUS - 1, 1, state);
  }

  /** The only state a step leads from. */
  function Previous(state: nat): nat {
    Iterate(MODULUS - 1, state)
  }

  /** A step is a bijection of the states below 2^32: two states never lead to one, and each is led to. */
  lemma NextIsABijection(one: nat, other: nat)
    requires one < MODULUS && other < MODULUS
    ensures Next(one) == Next(other) <==> one == other
    ensures Previous(one) < MODULUS && Next(Previous(one)) == one && Previous(Next(one)) == one
  {
    OnePeriodLeadsBack(one);
    OnePeriodLeadsBack(other);
    IterateStaysBelowTheModulus(MODULUS - 1, one);
    ReturnsExactlyEveryModulus(MODULUS, one);
    assert Iterate(MODULUS, one) == Next(Iterate(MODULUS - 1, one));
  }

  // The least state below which a step from a negative state stays negative, but for the one state led to 0.
  const LEAST_RISING_STATE: int := -609
  const STATE_LED_TO_ZERO: int := 634785765

  lemma RemaindersOfNegatives(x: int)
    requires x < 0
    ensures Remainder(x, MODULUS) <= 0 && (Remainder(x, MODULUS) == 0 <==> x % MODULUS == 0)
  {
  }

  lemma NegativeStates(state: int)
    requires Possible(state) && state < 0
    ensures (state * MULTIPLIER + INCREMENT) % MODULUS == Next(state + MODULUS)
  {
    assert (state + MODULUS) * MULTIPLIER + INCREMENT == state * MULTIPLIER + INCREMENT + MULTIPLIER * MODULUS;
  }

  lemma FallingStates(state: int)
    requires Possible(state) && state < LEAST_RISING_STATE
    ensures Step(state) >= 0 <==> Next(state + MODULUS) == 0
  {
    hide Remainder, Next;
    assert state * MULTIPLIER + INCREMENT < 0;
    RemaindersOfNegatives(state * MULTIPLIER + INCREMENT);
    NegativeStates(state);
  }

  lemma FirstStates(state: int)
    requires Possible(state)
    ensures Step(state) >= 0 <==> state >= LEAST_RISING_STATE || state == STATE_LED_TO_ZERO - MODULUS
  {
    if state < LEAST_RISING_STATE {
      FallingStates(state);
      assert 0 <= state + MODULUS < MODULUS && STATE_LED_TO_ZERO < MODULUS;
      assert Next(STATE_LED_TO_ZERO) == 0;
      hide *;
      NextIsABijection(state + MODULUS, STATE_LED_TO_ZERO);
    } else {
      assert state * MULTIPLIER + INCREMENT >= 0;
    }
  }

  /** After which seeds every draw lies in [0, 1): those whose remainder is at least -609, and one more in 2^32. */
  lemma DrawsStayInTheUnitInterval(seed: int)
    ensures var state := Remainder(seed, MODULUS);
      (forall n: nat :: n > 0 ==> 0.0 <= DrawAt(n, state) < 1.0) <==>
      state >= LEAST_RISING_STATE || state == STATE_LED_TO_ZERO - MODULUS
  {
    assert MODULUS > 0;
    hide *;
    var state := Remainder(seed, MODULUS);
    SeedsArePossible(seed);
    DrawsFollowTheFirst(state);
    FirstStates(state);
  }

  lemma SeedsArePossible(seed: int)
    ensures Possible(Remainder(seed, MODULUS))
  {
  }

  /** A seed whose first draw is negative. */
  lemma ASeedMayDrawBelowNothing()
    ensures Remainder(-1000, MODULUS) == -1000 && Step(-1000) == -650620777 && DrawAt(1, -1000) < 0.0
  {
    assert Remainder(-1000, MODULUS) == -1000;
    assert Step(-1000) == -650620777;
    DrawsFollowTheFirst(-1000);
  }
}

/** Splitting a number of clones across clusters in proportion to their weights. */
module Apportionment {
  import opened RealArithmetic

  // What double arithmetic can answer where a whole number was meant: 0/0 is no number.
  datatype Count = Whole(n: int) | NotANumber

  // The same where a real number was meant: nor is the root of a negative number, nor anything made of it.
  datatype Number = Real(value: real) | NaN

  function Total(counts: seq<Count>): int {
    if counts == [] then 0 else Total(counts[..|counts| - 1]) + Made(counts[|counts| - 1])
  }

  // How often a loop counting up to `count` runs; never, where the count is no number.
  function Made(count: Count): nat {
    if count.Whole? && count.n > 0 then count.n else 0
  }

  function Plus(one: Number, other: Number): Number {
    if one.Real? && other.Real? then Real(one.value + other.value) else NaN
  }

  function Sum(weights: seq<Number>): Number {
    if weights == [] then Real(0.0) else Plus(Sum(weights[..|weights| - 1]), weights[|weights| - 1])
  }

  predicate Numbers(weights: seq<Number>) {
    forall i :: 0 <= i < |weights| ==> weights[i].Real?
  }

  function Values(weights: seq<Number>): (values: seq<real>)
    requires Numbers(weights)
    ensures |values| == |weights|
  {
    seq(|weights|, i requires 0 <= i < |weights| => weights[i].value)
  }

  ghost predicate NoneNegative(values: seq<real>) {
    forall i :: 0 <= i < |values| ==> values[i] >= 0.0
  }

  /** Weights that are numbers are not negative. */
  ghost predicate Weights(weights: seq<Number>) {
    forall i :: 0 <= i < |weights| && weights[i].Real? ==> weights[i].value >= 0.0
  }

  /** Two clusters or more, and no share of their weights a number: all together they weigh nothing, or what is no
      number. */
  predicate Shareless(weights: seq<Number>) {
    |weights| >= 2 && DividesNothing(Sum(weights))
  }

  predicate DividesNothing(total: Number) {
    total.NaN? || total.value == 0.0
  }

  lemma {:induction false} SumsAreOfValues(weights: seq<Number>)
    ensures if Numbers(weights) then Sum(weights) == Real(SumOf(Values(weights))) else Sum(weights) == NaN
  {
    if weights != [] {
      var init := weights[..|weights| - 1];
      SumsAreOfValues(init);
      if Numbers(weights) {
        assert Values(weights)[..|weights| - 1] == Values(init);
      } else if Numbers(init) {
        assert weights[|weights| - 1] == NaN;
      }
    }
  }

  lemma PrefixSums(weights: seq<Number>, k: nat)
    requires Numbers(weights) && k <= |weights|
    ensures Sum(weights[..k]) == Real(SumOf(Values(weights)[..k]))
  {
    SumsAreOfValues(weights[..k]);
    assert Values(weights)[..k] == Values(weights[..k]);
  }

  /** The part of the clones asked for that the first k clusters weigh. */
  function Share(values: seq<real>, cloneCount: nat, k: nat): real
    requires k <= |values| && SumOf(values) != 0.0
  {
    Proportion(cloneCount, SumOf(values[..k]), SumOf(values))
  }

  function Proportion(cloneCount: nat, part: real, total: real): real
    requires total != 0.0
  {
    cloneCount as real * part / total
  }

  function Floored(cloneCount: nat, part: Number, total: Number): Count {
    if part.NaN? || DividesNothing(total) then NotANumber
    else Whole(Proportion(cloneCount, part.value, total.value).Floor)
  }

  function UpTo(weights: seq<Number>, cloneCount: nat, k: nat): Count
    requires k <= |weights|
  {
    if k == 0 then Whole(0)
    else if k == |weights| then Whole(cloneCount)
    else Floored(cloneCount, Sum(weights[..k]), Sum(weights))
  }

  function Minus(one: Count, other: Count): Count {
    if one.Whole? && other.Whole? then Whole(one.n - other.n) else NotANumber
  }

  function CountsOf(weights: seq<Number>, cloneCount: nat): (counts: seq<Count>)
    ensures |counts| == |weights|
  {
    seq(|weights|, i requires 0 <= i < |weights| => CountAt(weights, cloneCount, i))
  }

  function CountAt(weights: seq<Number>, cloneCount: nat, i: nat): Count
    requires i < |weights|
  {
    Minus(UpTo(weights, cloneCount, i + 1), UpTo(weights, cloneCount, i))
  }

  method CloneCounts(weights: seq<Number>, cloneCount: nat) returns (counts: seq<Count>)
    requires Weights(weights)
    ensures counts == CountsOf(weights, cloneCount)
  {
    var total := Sum(weights);
    var cumulative := Real(0.0);
    var given := Whole(0);
    counts := [];
    for index := 0 to |weights|
      invariant cumulative == Sum(weights[..index])
      invariant given == UpTo(weights, cloneCount, index)
      invariant |counts| == index
      invariant forall i :: 0 <= i < index ==> counts[i] == CountAt(weights, cloneCount, i)
    {
      hide Proportion, CountsOf, Floored;
      assert weights[..index + 1][..index] == weights[..index];
      cumulative := Plus(cumulative, weights[index]);
      var upTo := if index == |weights| - 1 then Whole(cloneCount) else Floored(cloneCount, cumulative, total);
      counts := counts + [Minus(upTo, given)];
      given := upTo;
    }
  }

  lemma {:induction false} PrefixesGrow(values: seq<real>, i: nat, j: nat)
    requires NoneNegative(values) && i <= j <= |values|
    ensures 0.0 <= SumOf(values[..i]) <= SumOf(values[..j])
    decreases j
  {
    if j > 0 {
      assert values[..j][..j - 1] == values[..j - 1];
      PrefixesGrow(values, if i < j then i else j - 1, j - 1);
    }
  }

  lemma SharesGrow(values: seq<real>, cloneCount: nat, i: nat, j: nat)
    requires NoneNegative(values) && i <= j <= |values| && SumOf(values) != 0.0
    ensures 0.0 <= Share(values, cloneCount, i) <= Share(values, cloneCount, j) <= cloneCount as real
    ensures i == 0 ==> Share(values, cloneCount, i) == 0.0
    ensures j == |values| ==> Share(values, cloneCount, j) == cloneCount as real
  {
    PrefixesGrow(values, i, j);
    PrefixesGrow(values, j, |values|);
    assert values[..|values|] == values;
    ProportionGrows(cloneCount, SumOf(values[..i]), SumOf(values[..j]), SumOf(values));
    ProportionGrows(cloneCount, SumOf(values[..j]), SumOf(values), SumOf(values));
  }

  lemma ProportionGrows(cloneCount: nat, a: real, b: real, t: real)
    requires 0.0 <= a <= b && t > 0.0
    ensures 0.0 <= Proportion(cloneCount, a, t) <= Proportion(cloneCount, b, t)
    ensures Proportion(cloneCount, t, t) == cloneCount as real
    ensures Proportion(cloneCount, 0.0, t) == 0.0
  {
    var c := cloneCount as real;
    assert c * (b - a) >= 0.0;
    assert c * b - c * a == c * (b - a);
    DivisionGrows(0.0, c * a, t);
    DivisionGrows(c * a, c * b, t);
  }

  lemma DivisionGrows(a: real, b: real, t: real)
    requires a <= b && t > 0.0
    ensures a / t <= b / t && 0.0 / t == 0.0
  {
    assert (a / t) * t == a && (b / t) * t == b;
  }

  // Where the weights are numbers, and not nothing in all, each prefix's count is its share rounded down.
  lemma UpToIsItsShare(weights: seq<Number>, cloneCount: nat, k: nat)
    requires Weights(weights) && Numbers(weights) && SumOf(Values(weights)) != 0.0 && k <= |weights|
    ensures UpTo(weights, cloneCount, k) == Whole(Share(Values(weights), cloneCount, k).Floor)
  {
    SharesGrow(Values(weights), cloneCount, k, k);
    SumsAreOfValues(weights);
    PrefixSums(weights, k);
    hide Proportion, Sum, Values;
  }

  lemma SharedAreNumbers(weights: seq<Number>)
    requires Weights(weights) && weights != [] && !Shareless(weights)
    ensures |weights| == 1 || (Numbers(weights) && SumOf(Values(weights)) != 0.0)
  {
    SumsAreOfValues(weights);
  }

  lemma UpToFollowsItsShare(weights: seq<Number>, cloneCount: nat, k: nat)
    requires Weights(weights) && !Shareless(weights) && k < |weights|
    ensures UpTo(weights, cloneCount, k).Whole? && UpTo(weights, cloneCount, k + 1).Whole?
    ensures 0 <= UpTo(weights, cloneCount, k).n <= UpTo(weights, cloneCount, k + 1).n
  {
    SharedAreNumbers(weights);
    if |weights| > 1 {
      UpToIsItsShare(weights, cloneCount, k);
      UpToIsItsShare(weights, cloneCount, k + 1);
      hide UpTo, Share;
      SharesGrow(Values(weights), cloneCount, k, k + 1);
    }
  }

  lemma {:induction false} PrefixTotals(weights: seq<Number>, cloneCount: nat, k: nat)
    requires Weights(weights) && !Shareless(weights) && k <= |weights|
    ensures UpTo(weights, cloneCount, k).Whole?
    ensures Total(CountsOf(weights, cloneCount)[..k]) == UpTo(weights, cloneCount, k).n
  {
    if k > 0 {
      PrefixTotals(weights, cloneCount, k - 1);
      UpToFollowsItsShare(weights, cloneCount, k - 1);
      hide UpTo, Shareless, Weights;
      var counts := CountsOf(weights, cloneCount);
      assert counts[..k][..k - 1] == counts[..k - 1];
    }
  }

  lemma PrefixesFollowTheirShares(weights: seq<Number>, cloneCount: nat, k: nat)
    requires Weights(weights) && Numbers(weights) && SumOf(Values(weights)) != 0.0 && k <= |weights|
    ensures Share(Values(weights), cloneCount, k) - 1.0
         < Total(CountsOf(weights, cloneCount)[..k]) as real
         <= Share(Values(weights), cloneCount, k)
  {
    SumsAreOfValues(weights);
    PrefixTotals(weights, cloneCount, k);
    UpToIsItsShare(weights, cloneCount, k);
    hide UpTo, Share, CountsOf, Total, Values;
    var share := Share(Values(weights), cloneCount, k);
    assert share - 1.0 < share.Floor as real <= share;
  }

  lemma CountIsWhole(weights: seq<Number>, cloneCount: nat, i: nat)
    requires Weights(weights) && !Shareless(weights) && i < |weights|
    ensures CountsOf(weights, cloneCount)[i].Whole? && CountsOf(weights, cloneCount)[i].n >= 0
  {
    UpToFollowsItsShare(weights, cloneCount, i);
  }

  lemma AllAreMade(weights: seq<Number>, cloneCount: nat)
    requires Weights(weights) && weights != [] && !Shareless(weights)
    ensures Total(CountsOf(weights, cloneCount)) == cloneCount
  {
    PrefixTotals(weights, cloneCount, |weights|);
    assert CountsOf(weights, cloneCount)[..|weights|] == CountsOf(weights, cloneCount);
  }

  /** Every cluster grows a whole, nonnegative number of clones, the clones add up to the count
      asked for, and each prefix of clusters stays within one clone of its proportional share. */
  lemma CountsAreAProportionalSplit(weights: seq<Number>, cloneCount: nat)
    requires Weights(weights) && weights != [] && !Shareless(weights)
    ensures forall i :: 0 <= i < |weights| ==>
      CountsOf(weights, cloneCount)[i].Whole? && CountsOf(weights, cloneCount)[i].n >= 0
    ensures Total(CountsOf(weights, cloneCount)) == cloneCount
    ensures Numbers(weights) && SumOf(Values(weights)) != 0.0 ==> forall k :: 0 <= k <= |weights| ==>
      Share(Values(weights), cloneCount, k) - 1.0 < Total(CountsOf(weights, cloneCount)[..k]) as real
        <= Share(Values(weights), cloneCount, k)
  {
    hide *;
    var counts := CountsOf(weights, cloneCount);
    forall i | 0 <= i < |weights|
      ensures counts[i].Whole? && counts[i].n >= 0
    {
      CountIsWhole(weights, cloneCount, i);
    }
    AllAreMade(weights, cloneCount);
    if Numbers(weights) && SumOf(Values(weights)) != 0.0 {
      forall k | 0 <= k <= |weights|
        ensures Share(Values(weights), cloneCount, k) - 1.0 < Total(counts[..k]) as real
          <= Share(Values(weights), cloneCount, k)
      {
        PrefixesFollowTheirShares(weights, cloneCount, k);
      }
    }
  }

  lemma {:induction false} NoNumbersMakeNothing(counts: seq<Count>)
    requires forall i :: 0 <= i < |counts| ==> counts[i].NotANumber?
    ensures Total(counts) == 0
  {
    if counts != [] {
      NoNumbersMakeNothing(counts[..|counts| - 1]);
    }
  }

  lemma NoSharesAreNumbers(weights: seq<Number>, cloneCount: nat, i: nat)
    requires Shareless(weights) && i < |weights|
    ensures CountsOf(weights, cloneCount)[i].NotANumber?
  {
    hide Sum, Proportion;
  }

  /** The clones add up to the count asked for exactly when the shares are numbers, and to none otherwise. */
  lemma CountsAddUpUnlessShareless(weights: seq<Number>, cloneCount: nat)
    requires Weights(weights) && weights != [] && cloneCount > 0
    ensures Total(CountsOf(weights, cloneCount)) == cloneCount <==> !Shareless(weights)
    ensures Shareless(weights) ==> Total(CountsOf(weights, cloneCount)) == 0
  {
    hide *;
    if Shareless(weights) {
      forall i | 0 <= i < |weights|
        ensures CountsOf(weights, cloneCount)[i].NotANumber?
      {
        NoSharesAreNumbers(weights, cloneCount, i);
      }
      NoNumbersMakeNothing(CountsOf(weights, cloneCount));
    } else {
      CountsAreAProportionalSplit(weights, cloneCount);
    }
  }
}

/** The Fisher-Yates shuffle of the clones. */
module Shuffle {
  import opened RealArithmetic
  import opened CongruentialGenerator
  import opened Sorting

  // The trade of positions i and j, left out where there is no position j.
  function Swapped<T>(items: seq<T>, i: nat, j: int): (swapped: seq<T>)
    requires i < |items|
    ensures |swapped| == |items|
  {
    if 0 <= j < |items| then items[i := items[j]][j := items[i]] else items
  }

  /** The order the swaps at positions n - 1 down to 1 leave, `choices[i]` being what position i trades with. */
  function ShuffledBy<T>(items: seq<T>, choices: seq<int>, n: nat): (order: seq<T>)
    requires n <= |choices| && n <= |items|
    ensures |order| == |items|
    decreases n
  {
    if n <= 1 then items else ShuffledBy(Swapped(items, n - 1, choices[n - 1]), choices, n - 1)
  }

  /** The vectors of positions that draws from the unit interval can choose. */
  ghost predicate Choices(choices: seq<int>) {
    forall i :: 0 <= i < |choices| ==> 0 <= choices[i] <= i
  }

  lemma SwappedIsAPermutation<T>(items: seq<T>, i: nat, j: int)
    requires i < |items|
    ensures multiset(Swapped(items, i, j)) == multiset(items)
  {
  }

  /** Whatever is drawn, even outside the unit interval, no item is lost or repeated. */
  lemma {:induction false} ShuffledIsAPermutation<T>(items: seq<T>, choices: seq<int>, n: nat)
    requires n <= |choices| && n <= |items|
    ensures multiset(ShuffledBy(items, choices, n)) == multiset(items)
    decreases n
  {
    if n > 1 {
      SwappedIsAPermutation(items, n - 1, choices[n - 1]);
      ShuffledIsAPermutation(Swapped(items, n - 1, choices[n - 1]), choices, n - 1);
    }
  }

  lemma {:induction false} ShuffledKeepsTheEnd<T>(items: seq<T>, choices: seq<int>, n: nat, k: nat)
    requires n <= |choices| && n <= k < |items| && Choices(choices)
    ensures ShuffledBy(items, choices, n)[k] == items[k]
    decreases n
  {
    if n > 1 {
      ShuffledKeepsTheEnd(Swapped(items, n - 1, choices[n - 1]), choices, n - 1, k);
    }
  }

  lemma {:induction false} LaterChoicesWait<T>(items: seq<T>, choices: seq<int>, longer: seq<int>, n: nat)
    requires n <= |choices| <= |longer| && n <= |items| && choices <= longer
    ensures ShuffledBy(items, choices, n) == ShuffledBy(items, longer, n)
    decreases n
  {
    if n > 1 {
      LaterChoicesWait(Swapped(items, n - 1, choices[n - 1]), choices, longer, n - 1);
    }
  }

  lemma ChoosingOneMore<T>(items: seq<T>, rest: seq<int>, j: int)
    requires 1 <= |rest| < |items|
    ensures ShuffledBy(items, rest + [j], |rest| + 1) == ShuffledBy(Swapped(items, |rest|, j), rest, |rest|)
  {
    LaterChoicesWait(Swapped(items, |rest|, j), rest, rest + [j], |rest|);
  }

  lemma OneItemLeft<T>(items: seq<T>, target: seq<T>)
    requires |items| == |target| > 0 && multiset(items) == multiset(target) && items[1..] == target[1..]
    ensures items == target
  {
    assert items == [items[0]] + items[1..] && target == [target[0]] + target[1..];
    assert multiset(items) == multiset{items[0]} + multiset(items[1..]);
    assert multiset(target) == multiset{target[0]} + multiset(target[1..]);
    assert multiset(items) - multiset(items[1..]) == multiset{items[0]};
    assert items[0] in multiset{target[0]};
  }

  // Where the item that belongs at `last` stands while everything past `last` is in place.
  lemma PlaceOf<T>(items: seq<T>, target: seq<T>, last: nat) returns (j: nat)
    requires last < |items| == |target| && Distinct(target)
    requires multiset(items) == multiset(target) && items[last + 1..] == target[last + 1..]
    ensures j <= last && items[j] == target[last]
    ensures Swapped(items, last, j)[last..] == target[last..]
  {
    assert target[last] in multiset(items);
    j :| 0 <= j < |items| && items[j] == target[last];
    forall k | last < k < |items|
      ensures items[k] == target[k]
    {
      assert items[k] == items[last + 1..][k - last - 1] == target[last + 1..][k - last - 1];
    }
    assert j <= last;
  }

  lemma ChoicesGrow(rest: seq<int>, j: int)
    requires Choices(rest) && 0 <= j <= |rest|
    ensures Choices(rest + [j])
  {
  }

  // Position n - 1 put right by one more choice, over the choices that put the rest right.
  lemma DrawingOneMore<T>(items: seq<T>, target: seq<T>, rest: seq<int>, j: int)
    requires 1 <= |rest| < |items| && Choices(rest) && 0 <= j <= |rest|
    requires ShuffledBy(Swapped(items, |rest|, j), rest, |rest|) == target
    ensures Choices(rest + [j]) && ShuffledBy(items, rest + [j], |rest| + 1) == target
  {
    hide ShuffledBy, Swapped;
    ChoicesGrow(rest, j);
    ChoosingOneMore(items, rest, j);
  }

  /** The same items, in their places from position n on. */
  ghost predicate InPlaceFrom<T>(items: seq<T>, target: seq<T>, n: nat) {
    n <= |items| == |target| && multiset(items) == multiset(target) && items[n..] == target[n..]
  }

  lemma NothingLeft<T>(items: seq<T>, target: seq<T>)
    requires InPlaceFrom(items, target, 0)
    ensures ShuffledBy(items, [], 0) == target
  {
    assert items == items[0..] && target == target[0..];
  }

  lemma OneLeft<T>(items: seq<T>, target: seq<T>)
    requires InPlaceFrom(items, target, 1)
    ensures |items| >= 1 && ShuffledBy(items, [0], 1) == target
  {
    OneItemLeft(items, target);
  }

  lemma PuttingOneRight<T>(items: seq<T>, target: seq<T>, n: nat) returns (j: nat)
    requires n > 0 && Distinct(target) && InPlaceFrom(items, target, n)
    ensures j < n <= |items| && InPlaceFrom(Swapped(items, n - 1, j), target, n - 1)
  {
    j := PlaceOf(items, target, n - 1);
    SwappedIsAPermutation(items, n - 1, j);
  }

  lemma {:induction false} EveryOrderIsDrawn<T>(items: seq<T>, target: seq<T>, n: nat) returns (choices: seq<int>)
    requires n <= |items| && Distinct(target) && InPlaceFrom(items, target, n)
    ensures |choices| == n && Choices(choices) && ShuffledBy(items, choices, n) == target
    decreases n
  {
    hide InPlaceFrom, ShuffledBy, Swapped, Distinct;
    if n == 0 {
      choices := [];
      NothingLeft(items, target);
    } else if n == 1 {
      choices := [0];
      OneLeft(items, target);
    } else {
      var j := PuttingOneRight(items, target, n);
      var rest := EveryOrderIsDrawn(Swapped(items, n - 1, j), target, n - 1);
      choices := rest + [j];
      DrawingOneMore(items, target, rest, j);
    }
  }

  lemma SwappedStaysDistinct<T>(items: seq<T>, i: nat, j: int)
    requires i < |items| && Distinct(items)
    ensures Distinct(Swapped(items, i, j))
  {
    if 0 <= j < |items| {
      var swapped := Swapped(items, i, j);
      forall a, b | 0 <= a < b < |items|
        ensures swapped[a] != swapped[b]
      {
        var a', b' := if a == i then j else if a == j then i else a, if b == i then j else if b == j then i else b;
        assert swapped[a] == items[a'] && swapped[b] == items[b'] && a' != b';
      }
    }
  }

  lemma {:induction false} OneDrawPerOrder<T>(items: seq<T>, one: seq<int>, other: seq<int>, n: nat)
    requires Distinct(items) && n <= |one| && n <= |other| && n <= |items|
    requires Choices(one) && Choices(other)
    requires ShuffledBy(items, one, n) == ShuffledBy(items, other, n)
    ensures one[..n] == other[..n]
    decreases n
  {
    if n > 1 {
      var last := n - 1;
      var left, right := Swapped(items, last, one[last]), Swapped(items, last, other[last]);
      ShuffledKeepsTheEnd(left, one, last, last);
      ShuffledKeepsTheEnd(right, other, last, last);
      assert one[last] == other[last];
      SwappedStaysDistinct(items, last, one[last]);
      OneDrawPerOrder(left, one, other, last);
      assert one[..n] == one[..last] + [one[last]] && other[..n] == other[..last] + [other[last]];
    } else if n == 1 {
      assert one[0] == other[0] == 0;
    }
  }

  /** Of the vectors the draws can choose, exactly one gives each order of the items. */
  lemma ShuffleIsABijection<T>(items: seq<T>, target: seq<T>)
    requires Distinct(items) && multiset(items) == multiset(target)
    ensures |items| == |target|
    ensures exists choices ::
      && |choices| == |items| && Choices(choices) && ShuffledBy(items, choices, |items|) == target
      && forall other :: |other| == |items| && Choices(other) && ShuffledBy(items, other, |items|) == target ==>
        other == choices
  {
    assert |items| == |multiset(items)| == |target|;
    DistinctIsAboutMultisets(items, target);
    var choices := EveryOrderIsDrawn(items, target, |items|);
    forall other | |other| == |items| && Choices(other) && ShuffledBy(items, other, |items|) == target
      ensures other == choices
    {
      OneDrawPerOrder(items, other, choices, |items|);
      assert other == other[..|items|] && choices == choices[..|items|];
    }
  }

  lemma DistinctIsAboutMultisets<T>(items: seq<T>, other: seq<T>)
    requires Distinct(items) && multiset(items) == multiset(other)
    ensures Distinct(other)
  {
    forall i, j | 0 <= i < j < |other|
      ensures other[i] != other[j]
    {
      if other[i] == other[j] {
        MultiplicityOfAPair(other, i, j);
        DistinctOccursOnce(items, other[i]);
      }
    }
  }

  // The position a draw names among the first index + 1.
  function PositionDrawn(draw: real, index: nat): int {
    (draw * (index + 1) as real).Floor
  }

  // The first draw goes to the last position, and position 0 draws nothing.
  function ChoicesDrawn(length: nat, state: int): (choices: seq<int>)
    ensures |choices| == length
  {
    seq(length, index requires 0 <= index < length =>
      if index == 0 then 0 else PositionDrawn(DrawAt(length - index, state), index))
  }

  lemma DrawsReachPlaces(draw: real, parts: nat, place: int)
    requires parts > 0
    ensures place as real <= draw * parts as real <==> place as real / parts as real <= draw
  {
    var share, n := place as real / parts as real, parts as real;
    assert share * n == place as real;
    SignOfAProduct(draw - share, n);
    assert (draw - share) * n == draw * n - share * n;
  }

  /** The places up to a position cut the unit interval into equal parts, and a draw names the one whose part it falls
      in. */
  lemma PlacesShareTheUnit(draw: real, index: nat, place: int)
    ensures PositionDrawn(draw, index) == place <==>
      place as real / (index + 1) as real <= draw < (place + 1) as real / (index + 1) as real
  {
    DrawsReachPlaces(draw, index + 1, place);
    DrawsReachPlaces(draw, index + 1, place + 1);
  }

  /** The choices of a shuffle: the last position takes the first draw, the one before it the second, and so on. */
  lemma EachPositionHasItsDraw(length: nat, state: int, index: nat)
    requires 0 < index < length
    ensures var place := ChoicesDrawn(length, state)[index];
      place as real / (index + 1) as real <= DrawAt(length - index, state) < (place + 1) as real / (index + 1) as real
  {
    hide PositionDrawn, DrawAt;
    PlacesShareTheUnit(DrawAt(length - index, state), index, ChoicesDrawn(length, state)[index]);
  }

  lemma {:induction false} OnlyTheFirstAreShuffled<T>(items: seq<T>, choices: seq<int>, n: nat, m: nat)
    requires n <= m <= |items| && n <= |choices| && Choices(choices)
    ensures ShuffledBy(items, choices, n)[..m] == ShuffledBy(items[..m], choices, n)
    decreases n
  {
    if n > 1 {
      OnlyTheFirstAreShuffled(Swapped(items, n - 1, choices[n - 1]), choices, n - 1, m);
      assert Swapped(items, n - 1, choices[n - 1])[..m] == Swapped(items[..m], n - 1, choices[n - 1]);
    }
  }

  /** A shuffle puts the item chosen for the last position there, and shuffles the others, the last of them standing in
      for it. */
  lemma TheLastIsChosenFirst<T>(items: seq<T>, choices: seq<int>)
    requires 1 <= |items| == |choices| && Choices(choices)
    ensures var last, order := |items| - 1, ShuffledBy(items, choices, |items|);
      && order[last] == items[choices[last]]
      && order[..last] == ShuffledBy(items[choices[last] := items[last]][..last], choices, last)
  {
    var last := |items| - 1;
    var swapped := Swapped(items, last, choices[last]);
    assert swapped[..last] == items[choices[last] := items[last]][..last] && swapped[last] == items[choices[last]];
    if last > 0 {
      hide Swapped;
      ShuffledKeepsTheEnd(swapped, choices, last, last);
      OnlyTheFirstAreShuffled(swapped, choices, last, last);
    }
  }

  lemma DrawStaysInPlace(draw: real, index: nat)
    requires 0.0 <= draw < 1.0
    ensures 0 <= PositionDrawn(draw, index) <= index
  {
    var width := (index + 1) as real;
    assert 0.0 <= draw * width;
    assert (1.0 - draw) * width > 0.0;
    assert draw * width < width;
  }

  lemma DrawnChoicesAreChoices(length: nat, state: int)
    requires Possible(state) && Step(state) >= 0
    ensures Choices(ChoicesDrawn(length, state))
  {
    DrawsFollowTheFirst(state);
    hide DrawAt, Step, PositionDrawn;
    forall index | 0 < index < length
      ensures 0 <= ChoicesDrawn(length, state)[index] <= index
    {
      DrawStaysInPlace(DrawAt(length - index, state), index);
    }
  }

  lemma ChoiceFollowsTheDraw(length: nat, state: int, index: nat)
    requires 0 < index < length
    ensures Step(Stepped(length - 1 - index, state)) == Stepped(length - index, state)
    ensures DrawAt(1, Stepped(length - 1 - index, state)) == DrawAt(length - index, state)
    ensures ChoicesDrawn(length, state)[index] == PositionDrawn(DrawAt(length - index, state), index)
  {
    StepsInTurn(1, length - 1 - index, state);
  }

  /** The places after `index` hold what the shuffle leaves there, and the generator has drawn once for each. */
  ghost predicate ShuffledDownTo<T>(items: seq<T>, start: int, result: seq<T>, state: int, index: int) {
    && 0 <= index < |items| == |result|
    && state == Stepped(|items| - 1 - index, start)
    && ShuffledBy(result, ChoicesDrawn(|items|, start), index + 1)
       == ShuffledBy(items, ChoicesDrawn(|items|, start), |items|)
  }

  lemma OneMoreShuffled<T>(items: seq<T>, start: int, result: seq<T>, state: int, index: int)
    requires ShuffledDownTo(items, start, result, state, index) && index > 0
    ensures var after := Swapped(result, index, PositionDrawn(DrawAt(1, state), index));
      ShuffledDownTo(items, start, after, Step(state), index - 1)
  {
    hide Swapped, PositionDrawn, DrawAt, Stepped, Step, ChoicesDrawn;
    ChoiceFollowsTheDraw(|items|, start, index);
  }

  lemma AllShuffled<T>(items: seq<T>, start: int, result: seq<T>, state: int)
    requires ShuffledDownTo(items, start, result, state, 0)
    ensures result == ShuffledBy(items, ChoicesDrawn(|items|, start), |items|)
    ensures state == Stepped(|items| - 1, start)
  {
  }

  method Shuffled<T>(items: seq<T>, random: Random) returns (result: seq<T>)
    requires random.Valid()
    modifies random
    ensures random.Valid()
    ensures result == ShuffledBy(items, ChoicesDrawn(|items|, old(random.state)), |items|)
    ensures random.state == Stepped(if |items| == 0 then 0 else |items| - 1, old(random.state))
  {
    result := items;
    if |items| == 0 { return; }
    ghost var start := random.state;
    var index := |result| - 1;
    while index > 0
      invariant 0 <= index < |result|
      invariant random.Valid() && ShuffledDownTo(items, start, result, random.state, index)
    {
      hide *;
      OneMoreShuffled(items, start, result, random.state, index);
      var draw := random.Draw();
      var other := PositionDrawn(draw, index);
      result := Swapped(result, index, other);
      index := index - 1;
    }
    AllShuffled(items, start, result, random.state);
  }
}

/** The cloud: the given points first, then their shuffled clones. */
module Densifier {
  import opened RealArithmetic
  import opened CongruentialGenerator
  import opened Apportionment
  import opened Shuffle

  const OUTLIER_SHARE := 0.01

  datatype Cluster<Point> = Cluster(parent: Point, weight: Number, sigmaX: Number, sigmaY: Number)

  /** What the floating-point parts make of points and draws: a point's weight, the magnitude and the turn of a pair of
      draws, the factor a Gaussian number spreads weights by and the reach it gives, and where an outlier and a clone
      near its parent fall. */
  datatype Shape<!Point> = Shape(
    weightOf: Point -> real,
    magnitude: real -> real,
    turn: real -> real,
    weightSpread: real -> real,
    sigma: real -> real,
    outlierOf: (Point, real, real) -> Point,
    nearOf: (Cluster<Point>, Number, Number) -> Point)

  /** Points weigh nothing or more, and an exponential is positive. */
  ghost predicate Weighs<Point(!new)>(shape: Shape<Point>) {
    (forall p :: shape.weightOf(p) >= 0.0) && (forall g :: shape.weightSpread(g) > 0.0)
  }

  predicate SomeWeigh<Point>(shape: Shape<Point>, points: seq<Point>) {
    exists i :: 0 <= i < |points| && shape.weightOf(points[i]) != 0.0
  }

  /** A Gaussian number from a pair of draws. Its magnitude is a root, of a negative number for a draw below zero. */
  function Gaussian<Point>(shape: Shape<Point>, first: real, second: real): Number {
    if 0.0 <= first < 1.0 then Real(shape.magnitude(first) * shape.turn(second)) else NaN
  }

  function Spread<Point>(shape: Shape<Point>, weight: real, gaussian: Number): Number {
    if gaussian.Real? then Real(weight * shape.weightSpread(gaussian.value)) else NaN
  }

  function Reach<Point>(shape: Shape<Point>, gaussian: Number): Number {
    if gaussian.Real? then Real(shape.sigma(gaussian.value)) else NaN
  }

  // ------------------------------------------------------------------ the clusters

  /** A point's cluster, from the six draws after a state. */
  function ClusterAt<Point>(shape: Shape<Point>, parent: Point, state: int): Cluster<Point> {
    Cluster(parent,
            Spread(shape, shape.weightOf(parent), Gaussian(shape, DrawAt(1, state), DrawAt(2, state))),
            Reach(shape, Gaussian(shape, DrawAt(3, state), DrawAt(4, state))),
            Reach(shape, Gaussian(shape, DrawAt(5, state), DrawAt(6, state))))
  }

  function ClustersOf<Point>(shape: Shape<Point>, points: seq<Point>, state: int): (clusters: seq<Cluster<Point>>)
    ensures |clusters| == |points|
  {
    seq(|points|, i requires 0 <= i < |points| => ClusterAt(shape, points[i], Stepped(6 * i, state)))
  }

  function WeightsOf<Point>(clusters: seq<Cluster<Point>>): (weights: seq<Number>)
    ensures |weights| == |clusters|
  {
    seq(|clusters|, i requires 0 <= i < |clusters| => clusters[i].weight)
  }

  lemma DrawsInTurn(k: nat, n: nat, state: int)
    ensures DrawAt(k, Stepped(n, state)) == DrawAt(k + n, state)
    ensures Stepped(k, Stepped(n, state)) == Stepped(k + n, state)
  {
    StepsInTurn(k, n, state);
  }

  // Two draws one after the other.
  method Pair(random: Random) returns (first: real, second: real)
    requires random.Valid()
    modifies random
    ensures random.Valid() && random.state == Stepped(2, old(random.state))
    ensures first == DrawAt(1, old(random.state)) && second == DrawAt(2, old(random.state))
  {
    ghost var s := random.state;
    DrawsInTurn(1, 1, s);
    assert Stepped(1, s) == Step(Stepped(0, s)) == Step(s) && Stepped(2, s) == Step(Stepped(1, s));
    hide Step, DrawAt, Stepped;
    first := random.Draw();
    second := random.Draw();
  }

  method ClusterOf<Point>(shape: Shape<Point>, parent: Point, random: Random) returns (cluster: Cluster<Point>)
    requires random.Valid()
    modifies random
    ensures random.Valid() && cluster == ClusterAt(shape, parent, old(random.state))
    ensures random.state == Stepped(6, old(random.state))
  {
    hide Step, DrawAt, Stepped;
    ghost var s := random.state;
    var a, b := Pair(random);
    var c, d := Pair(random);
    DrawsInTurn(1, 2, s);
    DrawsInTurn(2, 2, s);
    var e, f := Pair(random);
    DrawsInTurn(1, 4, s);
    DrawsInTurn(2, 4, s);
    cluster := Cluster(parent, Spread(shape, shape.weightOf(parent), Gaussian(shape, a, b)),
                       Reach(shape, Gaussian(shape, c, d)), Reach(shape, Gaussian(shape, e, f)));
  }

  method Clusters<Point>(shape: Shape<Point>, points: seq<Point>, random: Random)
    returns (clusters: seq<Cluster<Point>>)
    requires random.Valid()
    modifies random
    ensures random.Valid() && clusters == ClustersOf(shape, points, old(random.state))
    ensures random.state == Stepped(6 * |points|, old(random.state))
  {
    clusters := [];
    ghost var start := random.state;
    for i := 0 to |points|
      invariant random.Valid() && random.state == Stepped(6 * i, start)
      invariant clusters == ClustersOf(shape, points[..i], start)
    {
      hide *;
      DrawsInTurn(6, 6 * i, start);
      OneMoreCluster(shape, points, start, i);
      var cluster := ClusterOf(shape, points[i], random);
      clusters := clusters + [cluster];
    }
    assert points[..|points|] == points;
  }

  lemma OneMoreCluster<Point>(shape: Shape<Point>, points: seq<Point>, state: int, i: nat)
    requires i < |points|
    ensures ClustersOf(shape, points[..i + 1], state)
         == ClustersOf(shape, points[..i], state) + [ClusterAt(shape, points[i], Stepped(6 * i, state))]
  {
    hide ClusterAt, Stepped;
  }

  // ------------------------------------------------------------------ the clones

  /** What is made, and the generator's state behind it. */
  datatype Drawn<T> = Drawn(made: T, state: int)

  /** One clone: now and then an outlier, from three draws, and otherwise one near its parent, from five. */
  function CloneFrom<Point>(shape: Shape<Point>, cluster: Cluster<Point>, state: int): Drawn<Point> {
    if DrawAt(1, state) < OUTLIER_SHARE
    then Drawn(shape.outlierOf(cluster.parent, DrawAt(2, state), DrawAt(3, state)), Stepped(3, state))
    else
      Drawn(shape.nearOf(cluster, Gaussian(shape, DrawAt(2, state), DrawAt(3, state)),
                         Gaussian(shape, DrawAt(4, state), DrawAt(5, state))),
            Stepped(5, state))
  }

  function RunFrom<Point>(shape: Shape<Point>, cluster: Cluster<Point>, state: int, n: nat): (run: Drawn<seq<Point>>)
    ensures |run.made| == n
  {
    if n == 0 then Drawn([], state) else
      var before := RunFrom(shape, cluster, state, n - 1);
      var clone := CloneFrom(shape, cluster, before.state);
      Drawn(before.made + [clone.made], clone.state)
  }

  /** The first n clusters' clones, in the order they are made. */
  function ClonesFrom<Point>(shape: Shape<Point>, clusters: seq<Cluster<Point>>, counts: seq<Count>, state: int,
      n: nat): Drawn<seq<Point>>
    requires n <= |clusters| == |counts|
  {
    if n == 0 then Drawn([], state) else
      var before := ClonesFrom(shape, clusters, counts, state, n - 1);
      BehindARun(shape, clusters[n - 1], before, Made(counts[n - 1]))
  }

  /** What was made before, and a run of n clones behind it. */
  function BehindARun<Point>(shape: Shape<Point>, cluster: Cluster<Point>, before: Drawn<seq<Point>>,
      n: nat): Drawn<seq<Point>> {
    var run := RunFrom(shape, cluster, before.state, n);
    Drawn(before.made + run.made, run.state)
  }

  lemma BehindNone<Point>(shape: Shape<Point>, cluster: Cluster<Point>, before: Drawn<seq<Point>>)
    ensures BehindARun(shape, cluster, before, 0) == before
  {
    assert before.made + [] == before.made;
  }

  lemma JoinedInTurn<T>(a: seq<T>, b: seq<T>, x: T)
    ensures a + (b + [x]) == a + b + [x]
  {
  }

  lemma OneMoreClone<Point>(shape: Shape<Point>, cluster: Cluster<Point>, before: Drawn<seq<Point>>, n: nat,
      sofar: Drawn<seq<Point>>)
    requires sofar == BehindARun(shape, cluster, before, n)
    ensures var clone := CloneFrom(shape, cluster, sofar.state);
      BehindARun(shape, cluster, before, n + 1) == Drawn(sofar.made + [clone.made], clone.state)
  {
    hide CloneFrom;
    JoinedInTurn(before.made, RunFrom(shape, cluster, before.state, n).made,
      CloneFrom(shape, cluster, sofar.state).made);
  }

  method CloneOf<Point>(shape: Shape<Point>, cluster: Cluster<Point>, random: Random) returns (clone: Point)
    requires random.Valid()
    modifies random
    ensures random.Valid() && Drawn(clone, random.state) == CloneFrom(shape, cluster, old(random.state))
  {
    ghost var s := random.state;
    DrawsInTurn(1, 1, s);
    DrawsInTurn(2, 1, s);
    DrawsInTurn(1, 3, s);
    DrawsInTurn(2, 3, s);
    assert Stepped(1, s) == Step(Stepped(0, s)) == Step(s);
    hide Step, DrawAt, Stepped;
    var draw := random.Draw();
    var a, b := Pair(random);
    if draw < OUTLIER_SHARE {
      return shape.outlierOf(cluster.parent, a, b);
    }
    var c, d := Pair(random);
    clone := shape.nearOf(cluster, Gaussian(shape, a, b), Gaussian(shape, c, d));
  }

  method Clones<Point>(shape: Shape<Point>, clusters: seq<Cluster<Point>>, counts: seq<Count>, random: Random)
    returns (clones: seq<Point>)
    requires |clusters| == |counts| && random.Valid()
    modifies random
    ensures random.Valid()
    ensures Drawn(clones, random.state) == ClonesFrom(shape, clusters, counts, old(random.state), |clusters|)
  {
    clones := [];
    ghost var start := random.state;
    for index := 0 to |clusters|
      invariant random.Valid() && Drawn(clones, random.state) == ClonesFrom(shape, clusters, counts, start, index)
    {
      ghost var before := Drawn(clones, random.state);
      var made := 0;
      BehindNone(shape, clusters[index], before);
      while made < Made(counts[index])
        invariant random.Valid() && made <= Made(counts[index])
        invariant Drawn(clones, random.state) == BehindARun(shape, clusters[index], before, made)
      {
        hide *;
        OneMoreClone(shape, clusters[index], before, made, Drawn(clones, random.state));
        var clone := CloneOf(shape, clusters[index], random);
        clones := clones + [clone];
        made := made + 1;
      }
    }
  }

  lemma {:induction false} AsManyClonesAsCounted<Point>(
    shape: Shape<Point>, clusters: seq<Cluster<Point>>, counts: seq<Count>, state: int, n: nat)
    requires n <= |clusters| == |counts|
    ensures |ClonesFrom(shape, clusters, counts, state, n).made| == Total(counts[..n])
  {
    if n > 0 {
      AsManyClonesAsCounted(shape, clusters, counts, state, n - 1);
      assert counts[..n][..n - 1] == counts[..n - 1];
    }
  }

  /** What a clone is made of: from the five draws after a state it is an outlier near nothing, which takes three, where
      the first lies below a hundredth, and otherwise one near its parent, which takes them all. */
  ghost predicate IsDrawn<Point>(shape: Shape<Point>, cluster: Cluster<Point>, state: int, clone: Point, next: int) {
    var choice, a, b, c, d := DrawAt(1, state), DrawAt(2, state), DrawAt(3, state), DrawAt(4, state), DrawAt(5, state);
    if choice < 0.01 then clone == shape.outlierOf(cluster.parent, a, b) && next == Stepped(3, state)
    else
      && clone == shape.nearOf(cluster, if 0.0 <= a < 1.0 then Real(shape.magnitude(a) * shape.turn(b)) else NaN,
        if 0.0 <= c < 1.0 then Real(shape.magnitude(c) * shape.turn(d)) else NaN)
      && next == Stepped(5, state)
  }

  /** The clones of every cluster in turn, as many as were counted, drawn one after another through these states. */
  ghost predicate AreDrawn<Point>(shape: Shape<Point>, clusters: seq<Cluster<Point>>, counts: seq<Count>,
      clones: seq<Point>, states: seq<int>)
    requires |clusters| == |counts|
  {
    && |states| == |clones| + 1 && |clones| == Total(counts)
    && forall c, k :: 0 <= c < |clusters| && 0 <= Total(counts[..c]) <= k < Total(counts[..c + 1]) && k < |clones| ==>
      IsDrawn(shape, clusters[c], states[k], clones[k], states[k + 1])
  }

  lemma ACloneIsDrawn<Point>(shape: Shape<Point>, cluster: Cluster<Point>, state: int)
    ensures var clone := CloneFrom(shape, cluster, state); IsDrawn(shape, cluster, state, clone.made, clone.state)
  {
  }

  lemma {:induction false} ARunIsDrawn<Point>(shape: Shape<Point>, cluster: Cluster<Point>, state: int, n: nat)
    returns (states: seq<int>)
    ensures |states| == n + 1 && states[0] == state && states[n] == RunFrom(shape, cluster, state, n).state
    ensures var clones := RunFrom(shape, cluster, state, n).made;
      forall k :: 0 <= k < n ==> IsDrawn(shape, cluster, states[k], clones[k], states[k + 1])
  {
    hide CloneFrom, IsDrawn;
    if n == 0 {
      states := [state];
    } else {
      var before := ARunIsDrawn(shape, cluster, state, n - 1);
      ACloneIsDrawn(shape, cluster, before[n - 1]);
      states := before + [RunFrom(shape, cluster, state, n).state];
    }
  }

  lemma RunsJoin<Point>(shape: Shape<Point>, clusters: seq<Cluster<Point>>, counts: seq<Count>, clones: seq<Point>,
      states: seq<int>, run: seq<Point>, further: seq<int>)
    requires |clusters| == |counts| > 0 && |run| == Made(counts[|counts| - 1]) && |further| == |run| + 1
    requires AreDrawn(shape, clusters[..|clusters| - 1], counts[..|counts| - 1], clones, states)
    requires further[0] == states[|clones|]
    requires forall k :: 0 <= k < |run| ==>
      IsDrawn(shape, clusters[|clusters| - 1], further[k], run[k], further[k + 1])
    ensures AreDrawn(shape, clusters, counts, clones + run, states + further[1..])
  {
    hide IsDrawn;
    var last, all, through := |clusters| - 1, clones + run, states + further[1..];
    forall c, k | 0 <= c < |clusters| && 0 <= Total(counts[..c]) <= k < Total(counts[..c + 1]) && k < |all|
      ensures IsDrawn(shape, clusters[c], through[k], all[k], through[k + 1])
    {
      if c < last {
        assert counts[..last][..c] == counts[..c] && counts[..last][..c + 1] == counts[..c + 1];
        TotalsRise(counts, c + 1, last);
        assert IsDrawn(shape, clusters[..last][c], states[k], clones[k], states[k + 1]);
      } else {
        assert IsDrawn(shape, clusters[last], further[k - |clones|], run[k - |clones|], further[k - |clones| + 1]);
      }
    }
  }

  lemma {:induction false} TotalsRise(counts: seq<Count>, i: nat, j: nat)
    requires i <= j <= |counts|
    ensures Total(counts[..i]) <= Total(counts[..j])
    decreases j
  {
    if i < j {
      TotalsRise(counts, i, j - 1);
      assert counts[..j][..j - 1] == counts[..j - 1];
    }
  }

  /** Every clone is drawn for its own cluster: the clusters' clones stand one cluster after another, each as many as
      counted. */
  lemma {:induction false} ClonesAreTheirClusters<Point>(shape: Shape<Point>, clusters: seq<Cluster<Point>>,
      counts: seq<Count>, state: int)
    returns (states: seq<int>)
    requires |clusters| == |counts|
    ensures var clones := ClonesFrom(shape, clusters, counts, state, |clusters|);
      && AreDrawn(shape, clusters, counts, clones.made, states)
      && states[0] == state && states[|clones.made|] == clones.state
    decreases |clusters|
  {
    hide IsDrawn, CloneFrom, RunFrom;
    if |clusters| == 0 {
      states := [state];
    } else {
      var last := |clusters| - 1;
      OfTheFirst(shape, clusters, counts, state, last);
      var before := ClonesAreTheirClusters(shape, clusters[..last], counts[..last], state);
      var clones := ClonesFrom(shape, clusters, counts, state, last);
      var run := RunFrom(shape, clusters[last], clones.state, Made(counts[last]));
      var further := ARunIsDrawn(shape, clusters[last], clones.state, Made(counts[last]));
      RunsJoin(shape, clusters, counts, clones.made, before, run.made, further);
      states := before + further[1..];
    }
  }

  lemma {:induction false} OfTheFirst<Point>(shape: Shape<Point>, clusters: seq<Cluster<Point>>, counts: seq<Count>,
      state: int, n: nat)
    requires n < |clusters| == |counts|
    ensures ClonesFrom(shape, clusters, counts, state, n)
      == ClonesFrom(shape, clusters[..|clusters| - 1], counts[..|counts| - 1], state, n)
  {
    hide BehindARun;
    if n > 0 {
      OfTheFirst(shape, clusters, counts, state, n - 1);
    }
  }

  /** A point's cluster: of its own six draws each pair makes a number, the first of which spreads its point's weight
      and the others its two reaches. */
  lemma ClustersAreDrawn<Point>(shape: Shape<Point>, points: seq<Point>, state: int, i: nat, draws: seq<real>,
      numbers: seq<real>)
    requires i < |points| && |draws| == 6 && |numbers| == 3
    requires forall k :: 0 <= k < 6 ==> draws[k] == DrawAt(6 * i + 1 + k, state) && 0.0 <= draws[k] < 1.0
    requires forall k :: 0 <= k < 3 ==> numbers[k] == shape.magnitude(draws[2 * k]) * shape.turn(draws[2 * k + 1])
    ensures var cluster := ClustersOf(shape, points, state)[i];
      && cluster.parent == points[i]
      && cluster.weight == Real(shape.weightOf(points[i]) * shape.weightSpread(numbers[0]))
      && cluster.sigmaX == Real(shape.sigma(numbers[1])) && cluster.sigmaY == Real(shape.sigma(numbers[2]))
  {
    hide DrawAt, Stepped, Gaussian;
    var s := Stepped(6 * i, state);
    NumberOfDraws(shape, i, state, draws, numbers, 0);
    NumberOfDraws(shape, i, state, draws, numbers, 1);
    NumberOfDraws(shape, i, state, draws, numbers, 2);
  }

  lemma NumberOfDraws<Point>(shape: Shape<Point>, i: nat, state: int, draws: seq<real>, numbers: seq<real>, k: nat)
    requires k < 3 && |draws| == 6 && |numbers| == 3
    requires draws[2 * k] == DrawAt(6 * i + 1 + 2 * k, state) && draws[2 * k + 1] == DrawAt(6 * i + 2 + 2 * k, state)
    requires 0.0 <= draws[2 * k] < 1.0
    requires numbers[k] == shape.magnitude(draws[2 * k]) * shape.turn(draws[2 * k + 1])
    ensures var s := Stepped(6 * i, state);
      Gaussian(shape, DrawAt(2 * k + 1, s), DrawAt(2 * k + 2, s)) == Real(numbers[k])
  {
    hide DrawAt, Stepped;
    DrawsInTurn(2 * k + 1, 6 * i, state);
    DrawsInTurn(2 * k + 2, 6 * i, state);
  }

  lemma {:induction false} SumsOfNothing(values: seq<real>)
    requires NoneNegative(values)
    ensures SumOf(values) >= 0.0 && (SumOf(values) == 0.0 <==> forall i :: 0 <= i < |values| ==> values[i] == 0.0)
  {
    if values != [] {
      SumsOfNothing(values[..|values| - 1]);
    }
  }

  lemma SpreadWeighs(weight: real, spread: real)
    requires weight >= 0.0 && spread > 0.0
    ensures weight * spread >= 0.0 && (weight * spread == 0.0 <==> weight == 0.0)
  {
  }

  // A cluster's weight is a number exactly if its first draw lies in [0, 1), and then nothing only if its point's is.
  lemma AClusterWeighsAsItsPoint<Point(!new)>(shape: Shape<Point>, points: seq<Point>, state: int, i: nat)
    requires Weighs(shape) && i < |points|
    ensures var weight := WeightsOf(ClustersOf(shape, points, state))[i];
      && (weight.Real? <==> 0.0 <= DrawAt(6 * i + 1, state) < 1.0)
      && (weight.Real? ==> weight.value >= 0.0 && (weight.value == 0.0 <==> shape.weightOf(points[i]) == 0.0))
  {
    hide Stepped, DrawAt, Gaussian, Spread;
    DrawsInTurn(1, 6 * i, state);
    var s := Stepped(6 * i, state);
    SpreadWeighsAsItsPoint(shape, points[i], DrawAt(1, s), DrawAt(2, s));
  }

  lemma SpreadWeighsAsItsPoint<Point(!new)>(shape: Shape<Point>, p: Point, first: real, second: real)
    requires Weighs(shape)
    ensures var weight := Spread(shape, shape.weightOf(p), Gaussian(shape, first, second));
      && (weight.Real? <==> 0.0 <= first < 1.0)
      && (weight.Real? ==> weight.value >= 0.0 && (weight.value == 0.0 <==> shape.weightOf(p) == 0.0))
  {
    var gaussian := Gaussian(shape, first, second);
    if gaussian.Real? {
      SpreadWeighs(shape.weightOf(p), shape.weightSpread(gaussian.value));
    }
  }

  lemma WeightsAddUpToNothing(weights: seq<Number>)
    requires Weights(weights)
    ensures DividesNothing(Sum(weights)) <==>
      !Numbers(weights) || forall i :: 0 <= i < |weights| ==> weights[i].value == 0.0
  {
    hide Sum, SumOf;
    SumsAreOfValues(weights);
    if Numbers(weights) {
      var values := Values(weights);
      assert forall i :: 0 <= i < |weights| ==> values[i] == weights[i].value;
      SumsOfNothing(values);
    }
  }

  /** Where the first state drawn is not negative, the clusters weigh nothing exactly if the points do; where it is, the
      first weight is no number. */
  lemma ClustersWeighAsTheirPoints<Point(!new)>(shape: Shape<Point>, points: seq<Point>, state: int)
    requires Weighs(shape) && Possible(state)
    ensures var weights := WeightsOf(ClustersOf(shape, points, state));
      && Weights(weights)
      && (Shareless(weights) <==> |points| >= 2 && (Step(state) < 0 || !SomeWeigh(shape, points)))
  {
    hide *;
    var weights := WeightsOf(ClustersOf(shape, points, state));
    DrawsFollowTheFirst(state);
    forall i | 0 <= i < |points|
      ensures Step(state) >= 0 ==> weights[i].Real?
      ensures weights[i].Real? ==>
        weights[i].value >= 0.0 && (weights[i].value == 0.0 <==> shape.weightOf(points[i]) == 0.0)
      ensures Step(state) < 0 && i == 0 ==> weights[i].NaN?
    {
      AClusterWeighsAsItsPoint(shape, points, state, i);
    }
    WeighedAsThePoints(shape, points, weights, Step(state) >= 0);
  }

  lemma WeighedAsThePoints<Point>(shape: Shape<Point>, points: seq<Point>, weights: seq<Number>, rises: bool)
    requires |weights| == |points|
    requires forall i :: 0 <= i < |points| ==>
      && (rises ==> weights[i].Real?)
      && (weights[i].Real? ==>
            weights[i].value >= 0.0 && (weights[i].value == 0.0 <==> shape.weightOf(points[i]) == 0.0))
      && (!rises && i == 0 ==> weights[i].NaN?)
    ensures Weights(weights) && (Shareless(weights) <==> |points| >= 2 && (!rises || !SomeWeigh(shape, points)))
  {
    assert Weights(weights);
    WeightsAddUpToNothing(weights);
    hide Sum, Weights;
    if |points| >= 2 {
      if !rises {
        assert weights[0].NaN?;
      } else if SomeWeigh(shape, points) {
        var i :| 0 <= i < |points| && shape.weightOf(points[i]) != 0.0;
        assert weights[i].value != 0.0;
      } else {
        forall i | 0 <= i < |weights|
          ensures weights[i].value == 0.0
        {
          assert shape.weightOf(points[i]) == 0.0;
        }
      }
    }
  }

  // ------------------------------------------------------------------ the cloud

  /** The clones of a cloud drawn from a state on, before they are shuffled, and the state behind them. */
  function ClonesAfter<Point>(shape: Shape<Point>, points: seq<Point>, state: int, cloneCount: nat): Drawn<seq<Point>> {
    var clusters := ClustersOf(shape, points, state);
    ClonesFrom(shape, clusters, CountsOf(WeightsOf(clusters), cloneCount), Stepped(6 * |points|, state), |points|)
  }

  function AllClones<Point>(shape: Shape<Point>, points: seq<Point>, seed: int, cloneCount: nat): Drawn<seq<Point>> {
    ClonesAfter(shape, points, Remainder(seed, MODULUS), cloneCount)
  }

  /** The points given and the clones behind them. */
  function Cloud<Point>(points: seq<Point>, clones: seq<Point>): seq<Point> {
    points + clones
  }

  /** The cloud, a function of its points, its seed and its target alone. */
  function Densified<Point>(shape: Shape<Point>, points: seq<Point>, seed: int, targetCount: int): seq<Point> {
    if points == [] || targetCount <= |points| then points
    else
      var clones := AllClones(shape, points, seed, targetCount - |points|);
      Cloud(points, ShuffledBy(clones.made, ChoicesDrawn(|clones.made|, clones.state), |clones.made|))
  }

  /** Whether a cloud can reach its target: from one point always, and else where the first draw is not negative and
      some point weighs something. */
  predicate CanGrow<Point>(shape: Shape<Point>, points: seq<Point>, seed: int) {
    |points| == 1 || (Step(Remainder(seed, MODULUS)) >= 0 && SomeWeigh(shape, points))
  }

  lemma AsManyClonesAsAskedFor<Point(!new)>(shape: Shape<Point>, points: seq<Point>, seed: int, cloneCount: nat)
    requires Weighs(shape) && points != [] && cloneCount > 0
    ensures |AllClones(shape, points, seed, cloneCount).made| == if CanGrow(shape, points, seed) then cloneCount else 0
  {
    var state := Remainder(seed, MODULUS);
    var clusters := ClustersOf(shape, points, state);
    var weights, behind := WeightsOf(clusters), Stepped(6 * |points|, state);
    var counts := CountsOf(weights, cloneCount);
    assert AllClones(shape, points, seed, cloneCount) == ClonesFrom(shape, clusters, counts, behind, |points|);
    assert CanGrow(shape, points, seed) <==> |points| == 1 || (Step(state) >= 0 && SomeWeigh(shape, points));
    SeedsArePossible(seed);
    hide *;
    AsManyClonesAsCounted(shape, clusters, counts, behind, |points|);
    assert counts[..|points|] == counts;
    ClustersWeighAsTheirPoints(shape, points, state);
    CountsAddUpUnlessShareless(weights, cloneCount);
  }

  // Every cluster grown from its point, and its clones made.
  method GrowClones<Point(!new)>(shape: Shape<Point>, points: seq<Point>, cloneCount: nat, random: Random)
    returns (clones: seq<Point>)
    requires Weighs(shape) && random.Valid()
    modifies random
    ensures random.Valid() && Drawn(clones, random.state) == ClonesAfter(shape, points, old(random.state), cloneCount)
  {
    assert Possible(random.state);
    hide *;
    ClustersWeighAsTheirPoints(shape, points, random.state);
    ClonesAreAfter(shape, points, random.state, cloneCount);
    var clusters := Clusters(shape, points, random);
    var counts := CloneCounts(WeightsOf(clusters), cloneCount);
    clones := Clones(shape, clusters, counts, random);
  }

  lemma ClonesAreAfter<Point>(shape: Shape<Point>, points: seq<Point>, state: int, cloneCount: nat)
    ensures var clusters := ClustersOf(shape, points, state);
      ClonesAfter(shape, points, state, cloneCount)
      == ClonesFrom(shape, clusters, CountsOf(WeightsOf(clusters), cloneCount), Stepped(6 * |points|, state),
        |clusters|)
  {
  }

  lemma NothingIsAdded<Point>(shape: Shape<Point>, points: seq<Point>, seed: int, targetCount: int)
    requires |points| == 0 || targetCount <= |points|
    ensures Densified(shape, points, seed, targetCount) == points
  {
  }

  lemma ClonesAreAdded<Point>(shape: Shape<Point>, points: seq<Point>, seed: int, targetCount: int,
      clones: Drawn<seq<Point>>)
    requires |points| != 0 && targetCount > |points|
    requires clones == AllClones(shape, points, seed, targetCount - |points|)
    ensures Densified(shape, points, seed, targetCount)
         == Cloud(points, ShuffledBy(clones.made, ChoicesDrawn(|clones.made|, clones.state), |clones.made|))
  {
  }

  lemma AllClonesAreAfter<Point>(shape: Shape<Point>, points: seq<Point>, seed: int, cloneCount: nat)
    ensures AllClones(shape, points, seed, cloneCount)
      == ClonesAfter(shape, points, Remainder(seed, MODULUS), cloneCount)
  {
  }

  method DensifyPoints<Point(!new)>(shape: Shape<Point>, points: seq<Point>, seed: int, targetCount: int)
    returns (cloud: seq<Point>)
    requires Weighs(shape)
    ensures cloud == Densified(shape, points, seed, targetCount)
  {
    hide *;
    if |points| == 0 || targetCount <= |points| {
      NothingIsAdded(shape, points, seed, targetCount);
      return points;
    }
    var cloneCount := targetCount - |points|;
    var random := new Random(seed);
    AllClonesAreAfter(shape, points, seed, cloneCount);
    var clones := GrowClones(shape, points, cloneCount, random);
    ClonesAreAdded(shape, points, seed, targetCount, Drawn(clones, random.state));
    var inDrawOrder := Shuffled(clones, random);
    cloud := Cloud(points, inDrawOrder);
  }

  /** The points given, first and unchanged, and behind them every clone, each once, in some order. */
  ghost predicate HoldsBoth<Point>(cloud: seq<Point>, points: seq<Point>, clones: seq<Point>) {
    |points| <= |cloud| && cloud[..|points|] == points && multiset(cloud[|points|..]) == multiset(clones)
  }

  lemma Appended<Point>(points: seq<Point>, clones: seq<Point>, order: seq<Point>)
    requires multiset(order) == multiset(clones) && |order| == |clones|
    ensures HoldsBoth(Cloud(points, order), points, clones) && |Cloud(points, order)| == |points| + |clones|
  {
    assert (points + order)[|points|..] == order;
  }

  /** The cloud holds the points given and every clone made: exactly the points asked for where it can grow, and
      otherwise the points given alone. */
  lemma TheCloudIsAsAskedFor<Point(!new)>(shape: Shape<Point>, points: seq<Point>, seed: int, targetCount: int)
    requires Weighs(shape)
    ensures points == [] || targetCount <= |points| ==> Densified(shape, points, seed, targetCount) == points
    ensures points != [] && targetCount > |points| ==>
      var cloud := Densified(shape, points, seed, targetCount);
      && HoldsBoth(cloud, points, AllClones(shape, points, seed, targetCount - |points|).made)
      && (|cloud| == targetCount <==> CanGrow(shape, points, seed))
      && (cloud == points <==> !CanGrow(shape, points, seed))
  {
    hide *;
    if |points| == 0 || targetCount <= |points| {
      NothingIsAdded(shape, points, seed, targetCount);
    } else {
      var clones := AllClones(shape, points, seed, targetCount - |points|);
      var choices := ChoicesDrawn(|clones.made|, clones.state);
      ClonesAreAdded(shape, points, seed, targetCount, clones);
      AsManyClonesAsAskedFor(shape, points, seed, targetCount - |points|);
      ShuffledIsAPermutation(clones.made, choices, |clones.made|);
      Appended(points, clones.made, ShuffledBy(clones.made, choices, |clones.made|));
    }
  }

  /** A seed that gives no cloud of two points or more any clone, whatever the points weigh and however many are asked
      for. */
  lemma ASeedMayGrowNothing<Point(!new)>(shape: Shape<Point>, points: seq<Point>, targetCount: int)
    requires Weighs(shape) && |points| >= 2
    ensures Densified(shape, points, -1000, targetCount) == points
  {
    ASeedMayDrawBelowNothing();
    hide Densified, Step;
    TheCloudIsAsAskedFor(shape, points, -1000, targetCount);
  }
}
