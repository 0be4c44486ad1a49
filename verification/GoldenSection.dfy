/**
 * Temperature fitting: golden-section search over log-temperature in [-3, 3].
 * Reals stand for floats. `ratio` is the golden ratio, known here only as the
 * positive root of r*r + r == 1.
 */
module GoldenSection {

  ghost predicate Golden(ratio: real) {
    ratio > 0.0 && ratio * ratio + ratio == 1.0
  }

  /** Never rising up to `m` and strictly rising after it, on [lo, hi]; a flat stretch on the way down is allowed. */
  ghost predicate Unimodal(f: real -> real, lo: real, m: real, hi: real) {
    && lo <= m <= hi
    && (forall x, y | lo <= x < y <= m :: f(x) >= f(y))
    && (forall x, y | m <= x < y <= hi :: f(x) < f(y))
  }

  function Pow(r: real, n: nat): real {
    if n == 0 then 1.0 else r * Pow(r, n - 1)
  }

  function Abs(x: real): real {
    if x < 0.0 then -x else x
  }

  // ------------------------------------------------- what the ratio brings

  lemma Growing(x: real, y: real)
    requires x >= 0.0 && y >= 0.0
    ensures x * x + x < y * y + y ==> x < y
  {
    assert (y * y + y) - (x * x + x) == (y - x) * (y + x + 1.0);
  }

  lemma RatioRange(ratio: real)
    requires Golden(ratio)
    ensures 0.5 < ratio < 34.0 / 55.0
  {
    Growing(0.5, ratio);
    Growing(ratio, 34.0 / 55.0);
  }

  /** The lower inner point. */
  function Low(ratio: real, lo: real, hi: real): real { hi - ratio * (hi - lo) }

  /** The upper inner point. */
  function High(ratio: real, lo: real, hi: real): real { lo + ratio * (hi - lo) }

  /** The bracket's width after `step` reductions. */
  function Width(ratio: real, step: nat): real {
    6.0 * Pow(ratio, step)
  }

  /** Cutting at one inner point leaves the other exactly at the opposite inner point of what remains. */
  lemma {:induction false} PointsReused(ratio: real, lo: real, hi: real, step: nat)
    requires Golden(ratio) && hi - lo == Width(ratio, step)
    ensures var a, b := Low(ratio, lo, hi), High(ratio, lo, hi);
            && a == High(ratio, lo, b) && b == Low(ratio, a, hi)
            && b - lo == Width(ratio, step + 1) && hi - a == Width(ratio, step + 1)
  {
    var d, width := hi - lo, Pow(ratio, step);
    PowNext(ratio, step);
    assert ratio * (ratio * d) == (ratio * ratio) * d == (1.0 - ratio) * d;
    assert ratio * (6.0 * width) == 6.0 * (ratio * width);
  }

  lemma Product(x: real, y: real)
    requires x > 0.0 && y > 0.0
    ensures x * y > 0.0
  {
  }

  lemma Scaled(ratio: real, d: real)
    requires 0.5 < ratio < 1.0 && d > 0.0
    ensures 0.5 * d < ratio * d < d
  {
    Product(ratio - 0.5, d);
    Product(1.0 - ratio, d);
    assert (ratio - 0.5) * d == ratio * d - 0.5 * d;
    assert (1.0 - ratio) * d == d - ratio * d;
  }

  lemma PointsInside(ratio: real, lo: real, hi: real)
    requires Golden(ratio) && lo < hi
    ensures lo < Low(ratio, lo, hi) < High(ratio, lo, hi) < hi
  {
    RatioRange(ratio);
    hide Golden;
    Scaled(ratio, hi - lo);
  }

  lemma {:induction false} PowPositive(r: real, n: nat)
    requires r > 0.0
    ensures Pow(r, n) > 0.0
  {
    if n > 0 {
      PowPositive(r, n - 1);
    }
  }

  lemma {:induction false} PowAdd(r: real, m: nat, n: nat)
    ensures Pow(r, m + n) == Pow(r, m) * Pow(r, n)
  {
    if m > 0 {
      PowAdd(r, m - 1, n);
      assert r * (Pow(r, m - 1) * Pow(r, n)) == (r * Pow(r, m - 1)) * Pow(r, n);
    }
  }

  lemma PowMonotone(r: real, s: real, n: nat)
    requires 0.0 < r <= s
    ensures 0.0 < Pow(r, n) <= Pow(s, n)
  {
    if n > 0 {
      PowMonotone(r, s, n - 1);
      assert r * Pow(r, n - 1) <= s * Pow(r, n - 1) <= s * Pow(s, n - 1);
    }
  }

  lemma {:induction false} PowOfPow(r: real, m: nat, n: nat)
    ensures Pow(r, m * n) == Pow(Pow(r, m), n)
  {
    if n > 0 {
      hide Pow;
      TimesStep(m, n);
      PowOfPow(r, m, n - 1);
      PowAdd(r, m, m * (n - 1));
      PowNext(Pow(r, m), n - 1);
    }
  }

  lemma TimesStep(m: nat, n: nat)
    requires n > 0
    ensures m * n == m + m * (n - 1)
  {
  }

  /** Five steps shrink the bracket more than elevenfold. */
  lemma FiveSteps(ratio: real)
    requires Golden(ratio)
    ensures 0.0 < Pow(ratio, 5) < 1.0 / 11.0
  {
    RatioRange(ratio);
    var r2 := ratio * ratio;
    assert Pow(ratio, 2) == r2 by { assert Pow(ratio, 1) == ratio; }
    var r3 := ratio * r2;
    assert r3 == ratio - r2 == 2.0 * ratio - 1.0;
    assert Pow(ratio, 3) == r3;
    var r4 := ratio * r3;
    assert r4 == 2.0 * r2 - ratio == 2.0 - 3.0 * ratio;
    assert Pow(ratio, 4) == r4;
    assert Pow(ratio, 5) == ratio * r4 == 2.0 * ratio - 3.0 * r2 == 5.0 * ratio - 3.0;
    PowPositive(ratio, 5);
  }

  lemma SixtySteps(ratio: real)
    requires Golden(ratio)
    ensures 0.0 < 3.0 * Pow(ratio, 60) < 0.000000000001
  {
    FiveSteps(ratio);
    PowOfPow(ratio, 5, 12);
    PowMonotone(Pow(ratio, 5), 1.0 / 11.0, 12);
    PowOfPow(1.0 / 11.0, 3, 4);
    var c := 1.0 / 11.0;
    assert Pow(c, 1) == c;
    assert Pow(c, 2) == c * c == 1.0 / 121.0;
    assert Pow(c, 3) == c * (1.0 / 121.0) == 1.0 / 1331.0;
    var d := 1.0 / 1331.0;
    assert Pow(d, 1) == d;
    assert Pow(d, 2) == d * d == 1.0 / 1771561.0;
    assert Pow(d, 3) == d * (1.0 / 1771561.0);
    assert Pow(d, 4) == d * (d * (1.0 / 1771561.0)) == (1.0 / 1771561.0) * (1.0 / 1771561.0);
    PowPositive(ratio, 60);
  }

  // ---------------------------------------------------------- one reduction

  /** Dropping the side whose inner point is no better keeps the minimiser. */
  lemma {:induction false} KeepsMinimiser(f: real -> real, lo0: real, m: real, hi0: real, lo: real, a: real, b: real,
                                          hi: real)
    requires Unimodal(f, lo0, m, hi0)
    requires lo0 <= lo <= m <= hi <= hi0 && lo < a < b < hi
    ensures f(a) < f(b) ==> m <= b
    ensures f(a) >= f(b) ==> a <= m
  {
    assert m > b ==> f(a) >= f(b);
    assert a > m ==> f(a) < f(b);
  }

  /** A unimodal function has its least value at `m`, and no other point to the right of `m` shares it. */
  lemma {:induction false} MinimiserIsLeast(f: real -> real, lo: real, m: real, hi: real, x: real)
    requires Unimodal(f, lo, m, hi) && lo <= x <= hi
    ensures f(m) <= f(x)
    ensures x > m ==> f(m) < f(x)
  {
  }

  const STEPS := 60

  /** The objective over log-temperature. */
  function Objective(nll: real -> real, exp: real -> real): real -> real {
    x => nll(exp(x))
  }

  /** The objective is unimodal over the searched range, with its least value at `m`. */
  ghost predicate BestAt(nll: real -> real, exp: real -> real, m: real) {
    Unimodal(Objective(nll, exp), -3.0, m, 3.0)
  }

  /** The two ends, the two inner points, and the objective at the inner points. */
  datatype Bracket = Bracket(lo: real, a: real, b: real, hi: real, fa: real, fb: real)

  /** One reduction: the inner point that stays keeps its value, and only the new one is evaluated. */
  function Shrunk(nll: real -> real, exp: real -> real, ratio: real, k: Bracket): Bracket {
    if k.fa < k.fb then
      var a := Low(ratio, k.lo, k.b);
      Bracket(k.lo, a, k.a, k.b, nll(exp(a)), k.fa)
    else
      var b := High(ratio, k.a, k.hi);
      Bracket(k.a, k.b, b, k.hi, k.fb, nll(exp(b)))
  }

  /** What holds after `step` reductions. */
  ghost predicate Tight(nll: real -> real, exp: real -> real, ratio: real, step: nat, k: Bracket) {
    && -3.0 <= k.lo < k.hi <= 3.0
    && k.hi - k.lo == Width(ratio, step)
    && k.a == Low(ratio, k.lo, k.hi) && k.b == High(ratio, k.lo, k.hi)
    && k.fa == Objective(nll, exp)(k.a) && k.fb == Objective(nll, exp)(k.b)
    && (forall m | BestAt(nll, exp, m) :: k.lo <= m <= k.hi)
  }

  /** The side that is kept holds every minimiser. */
  lemma {:induction false} MinimisersKept(nll: real -> real, exp: real -> real, ratio: real, step: nat, k: Bracket)
    requires Golden(ratio) && Tight(nll, exp, ratio, step, k)
    ensures k.fa < k.fb ==> forall m | BestAt(nll, exp, m) :: k.lo <= m <= k.b
    ensures k.fa >= k.fb ==> forall m | BestAt(nll, exp, m) :: k.a <= m <= k.hi
  {
    PointsInside(ratio, k.lo, k.hi);
    forall m | BestAt(nll, exp, m) ensures k.fa < k.fb ==> m <= k.b ensures k.fa >= k.fb ==> k.a <= m {
      KeepsMinimiser(Objective(nll, exp), -3.0, m, 3.0, k.lo, k.a, k.b, k.hi);
    }
    hide Unimodal, Golden, Low, High, Pow;
  }

  /** Every reduction shrinks the bracket by exactly the ratio and keeps the golden points and the minimiser in it. */
  lemma {:induction false} ShrinkKeepsTight(nll: real -> real, exp: real -> real, ratio: real, step: nat, k: Bracket)
    requires Golden(ratio) && Tight(nll, exp, ratio, step, k)
    ensures Tight(nll, exp, ratio, step + 1, Shrunk(nll, exp, ratio, k))
  {
    hide BestAt, Golden, Low, High, Width;
    PointsInside(ratio, k.lo, k.hi);
    PointsReused(ratio, k.lo, k.hi, step);
    MinimisersKept(nll, exp, ratio, step, k);
  }

  lemma {:induction false} FirstIsTight(nll: real -> real, exp: real -> real, ratio: real, k: Bracket)
    requires k.lo == -3.0 && k.hi == 3.0 && k.a == Low(ratio, -3.0, 3.0) && k.b == High(ratio, -3.0, 3.0)
    requires k.fa == nll(exp(k.a)) && k.fb == nll(exp(k.b))
    ensures Tight(nll, exp, ratio, 0, k)
  {
  }

  /** The midpoint of a tight bracket is at most half its width from the minimiser. */
  lemma {:induction false} MidpointIsNear(nll: real -> real, exp: real -> real, ratio: real, step: nat, k: Bracket)
    requires Tight(nll, exp, ratio, step, k)
    ensures -3.0 < (k.lo + k.hi) / 2.0 < 3.0
    ensures forall m | BestAt(nll, exp, m) :: Abs((k.lo + k.hi) / 2.0 - m) <= 3.0 * Pow(ratio, step)
  {
    hide BestAt, Low, High, Pow;
  }

  lemma PowNext(r: real, n: nat)
    ensures Pow(r, n + 1) == r * Pow(r, n)
  {
  }

  /** The bracket after `step` reductions of [-3, 3]. */
  function BracketAfter(nll: real -> real, exp: real -> real, ratio: real, step: nat): Bracket {
    if step == 0 then
      var a, b := Low(ratio, -3.0, 3.0), High(ratio, -3.0, 3.0);
      Bracket(-3.0, a, b, 3.0, nll(exp(a)), nll(exp(b)))
    else Shrunk(nll, exp, ratio, BracketAfter(nll, exp, ratio, step - 1))
  }

  /** The log-temperature the search settles on. */
  function LogTemperature(nll: real -> real, exp: real -> real, ratio: real): real {
    var k := BracketAfter(nll, exp, ratio, STEPS);
    (k.lo + k.hi) / 2.0
  }

  lemma {:induction false} BracketIsTight(nll: real -> real, exp: real -> real, ratio: real, step: nat)
    requires Golden(ratio)
    ensures Tight(nll, exp, ratio, step, BracketAfter(nll, exp, ratio, step))
  {
    hide Tight, Golden, Low, High;
    if step == 0 {
      FirstIsTight(nll, exp, ratio, BracketAfter(nll, exp, ratio, 0));
    } else {
      BracketIsTight(nll, exp, ratio, step - 1);
      ShrinkKeepsTight(nll, exp, ratio, step - 1, BracketAfter(nll, exp, ratio, step - 1));
    }
  }

  /**
   * For an objective unimodal over [-3, 3] the search ends within
   * 3 * ratio^60, below 1e-12, of the minimiser.
   */
  lemma {:induction false} FitIsNear(nll: real -> real, exp: real -> real, ratio: real, m: real)
    requires Golden(ratio) && BestAt(nll, exp, m)
    ensures -3.0 < LogTemperature(nll, exp, ratio) < 3.0
    ensures Abs(LogTemperature(nll, exp, ratio) - m) <= 3.0 * Pow(ratio, STEPS) < 0.000000000001
  {
    hide Tight, Golden, BestAt, Pow, BracketAfter, Abs;
    SixtySteps(ratio);
    BracketIsTight(nll, exp, ratio, STEPS);
    MidpointIsNear(nll, exp, ratio, STEPS, BracketAfter(nll, exp, ratio, STEPS));
  }

  /** The mean negative log-likelihood, with the temperatures it has been asked for so far. */
  class Likelihood {
    const nll: real -> real
    ghost var asked: seq<real>

    constructor (nll: real -> real)
      ensures this.nll == nll && asked == []
    {
      this.nll := nll;
      asked := [];
    }

    method At(temperature: real) returns (value: real)
      modifies this
      ensures value == nll(temperature) && asked == old(asked) + [temperature]
    {
      asked := asked + [temperature];
      value := nll(temperature);
    }
  }

  /** The one log-temperature that a reduction has to evaluate. */
  function NewPoint(ratio: real, k: Bracket): real {
    if k.fa < k.fb then Low(ratio, k.lo, k.b) else High(ratio, k.a, k.hi)
  }

  /** The log-temperatures evaluated by `step` reductions: two to begin with, then one each. */
  function Points(nll: real -> real, exp: real -> real, ratio: real, step: nat): (ps: seq<real>)
    ensures |ps| == step + 2
  {
    if step == 0 then [Low(ratio, -3.0, 3.0), High(ratio, -3.0, 3.0)]
    else
      Points(nll, exp, ratio, step - 1) + [NewPoint(ratio, BracketAfter(nll, exp, ratio, step - 1))]
  }

  function Exponentials(exp: real -> real, ps: seq<real>): seq<real> {
    seq(|ps|, i requires 0 <= i < |ps| => exp(ps[i]))
  }

  lemma {:induction false} ExponentialsSnoc(exp: real -> real, ps: seq<real>, p: real)
    ensures Exponentials(exp, ps + [p]) == Exponentials(exp, ps) + [exp(p)]
  {
  }

  lemma {:induction false} FirstPoints(nll: real -> real, exp: real -> real, ratio: real)
    ensures var a, b := Low(ratio, -3.0, 3.0), High(ratio, -3.0, 3.0);
            && Points(nll, exp, ratio, 0) == [a, b]
            && Exponentials(exp, Points(nll, exp, ratio, 0)) == [exp(a)] + [exp(b)]
            && BracketAfter(nll, exp, ratio, 0) == Bracket(-3.0, a, b, 3.0, nll(exp(a)), nll(exp(b)))
  {
  }

  lemma {:induction false} PointsNext(nll: real -> real, exp: real -> real, ratio: real, step: nat)
    ensures var k := BracketAfter(nll, exp, ratio, step);
            && Points(nll, exp, ratio, step + 1) == Points(nll, exp, ratio, step) + [NewPoint(ratio, k)]
            && BracketAfter(nll, exp, ratio, step + 1) == Shrunk(nll, exp, ratio, k)
  {
    hide Shrunk, NewPoint;
  }

  lemma {:induction false} NewPointIsInside(nll: real -> real, exp: real -> real, ratio: real, step: nat, k: Bracket)
    requires Golden(ratio) && Tight(nll, exp, ratio, step, k)
    ensures k.lo < NewPoint(ratio, k) < k.hi && -3.0 < NewPoint(ratio, k) < 3.0
  {
    hide BestAt, Golden, Width, Objective, Low, High;
    PointsInside(ratio, k.lo, k.hi);
    PointsInside(ratio, k.lo, k.b);
    PointsInside(ratio, k.a, k.hi);
  }

  /**
   * Only temperatures strictly inside the searched range are evaluated, and
   * each new one inside the bracket it cuts.
   */
  lemma {:induction false} PointsAreInside(nll: real -> real, exp: real -> real, ratio: real, step: nat)
    requires Golden(ratio)
    ensures forall i | 0 <= i < step + 2 :: -3.0 < Points(nll, exp, ratio, step)[i] < 3.0
    ensures var k := BracketAfter(nll, exp, ratio, step); k.lo < NewPoint(ratio, k) < k.hi
  {
    hide *;
    BracketIsTight(nll, exp, ratio, step);
    NewPointIsInside(nll, exp, ratio, step, BracketAfter(nll, exp, ratio, step));
    if step == 0 {
      FirstPoints(nll, exp, ratio);
      PointsInside(ratio, -3.0, 3.0);
    } else {
      PointsAreInside(nll, exp, ratio, step - 1);
      PointsNext(nll, exp, ratio, step - 1);
      BracketIsTight(nll, exp, ratio, step - 1);
      NewPointIsInside(nll, exp, ratio, step - 1, BracketAfter(nll, exp, ratio, step - 1));
    }
  }

  // ----------------------------------------------------- with no hypothesis at all

  /** Both inner points were evaluated, and the better one is the best of all points evaluated so far. */
  ghost predicate HoldsBest(f: real -> real, ps: seq<real>, k: Bracket) {
    && k.a in ps && k.b in ps && k.fa == f(k.a) && k.fb == f(k.b)
    && (forall p | p in ps :: k.fa <= f(p) || k.fb <= f(p))
  }

  lemma {:induction false} BestIsKept(nll: real -> real, exp: real -> real, ratio: real, step: nat)
    ensures HoldsBest(Objective(nll, exp), Points(nll, exp, ratio, step), BracketAfter(nll, exp, ratio, step))
  {
    hide Low, High;
    if step > 0 {
      BestIsKept(nll, exp, ratio, step - 1);
      PointsNext(nll, exp, ratio, step - 1);
      hide Points, BracketAfter;
    }
  }

  /**
   * For every objective, unimodal or not: the answer is within 3 * ratio^60,
   * below 1e-12, of a point that was evaluated and is the best of all that were.
   */
  lemma {:induction false} FitIsNearBestSeen(nll: real -> real, exp: real -> real, ratio: real) returns (best: real)
    requires Golden(ratio)
    ensures best in Points(nll, exp, ratio, STEPS)
    ensures forall p | p in Points(nll, exp, ratio, STEPS) :: Objective(nll, exp)(best) <= Objective(nll, exp)(p)
    ensures Abs(LogTemperature(nll, exp, ratio) - best) <= 3.0 * Pow(ratio, STEPS) < 0.000000000001
  {
    var k := BracketAfter(nll, exp, ratio, STEPS);
    SixtySteps(ratio);
    BestIsKept(nll, exp, ratio, STEPS);
    BracketIsTight(nll, exp, ratio, STEPS);
    InnerIsNear(nll, exp, ratio, STEPS, k);
    best := if k.fa <= k.fb then k.a else k.b;
    hide Points, BracketAfter, Pow, Abs, Tight, Objective, Golden;
  }

  lemma {:induction false} InnerIsNear(nll: real -> real, exp: real -> real, ratio: real, step: nat, k: Bracket)
    requires Golden(ratio) && Tight(nll, exp, ratio, step, k)
    ensures Abs((k.lo + k.hi) / 2.0 - k.a) <= 3.0 * Pow(ratio, step)
    ensures Abs((k.lo + k.hi) / 2.0 - k.b) <= 3.0 * Pow(ratio, step)
  {
    PointsInside(ratio, k.lo, k.hi);
    hide BestAt, Golden, Low, High, Pow, Objective;
  }

  // ----------------------------------------------------------------- the search

  /**
   * The search. `likelihood` is evaluated at two points to begin with and at
   * one new point a step, 62 in all; `exp` is the exponential.
   */
  method FitTemperature(likelihood: Likelihood, exp: real -> real, ratio: real) returns (temperature: real)
    modifies likelihood
    ensures temperature == exp(LogTemperature(likelihood.nll, exp, ratio))
    ensures likelihood.asked
            == old(likelihood.asked) + Exponentials(exp, Points(likelihood.nll, exp, ratio, STEPS))
  {
    ghost var before := likelihood.asked;
    var lo, hi := -3.0, 3.0;
    var a, b := Low(ratio, lo, hi), High(ratio, lo, hi);
    var fa := likelihood.At(exp(a));
    var fb := likelihood.At(exp(b));
    FirstPoints(likelihood.nll, exp, ratio);
    hide *;
    for step := 0 to STEPS
      invariant likelihood.asked == before + Exponentials(exp, Points(likelihood.nll, exp, ratio, step))
      invariant Bracket(lo, a, b, hi, fa, fb) == BracketAfter(likelihood.nll, exp, ratio, step)
    {
      ghost var k := Bracket(lo, a, b, hi, fa, fb);
      PointsNext(likelihood.nll, exp, ratio, step);
      ExponentialsSnoc(exp, Points(likelihood.nll, exp, ratio, step), NewPoint(ratio, k));
      Reduction(likelihood.nll, exp, ratio, k);
      if fa < fb {
        hi, b, fb := b, a, fa;
        a := Low(ratio, lo, hi);
        fa := likelihood.At(exp(a));
      } else {
        lo, a, fa := a, b, fb;
        b := High(ratio, lo, hi);
        fb := likelihood.At(exp(b));
      }
    }
    Settled(likelihood.nll, exp, ratio);
    temperature := exp((lo + hi) / 2.0);
  }

  /** What the two branches of the loop have to compute. */
  lemma {:induction false} Reduction(nll: real -> real, exp: real -> real, ratio: real, k: Bracket)
    ensures var p := NewPoint(ratio, k);
            if k.fa < k.fb then
              p == Low(ratio, k.lo, k.b)
              && Shrunk(nll, exp, ratio, k) == Bracket(k.lo, p, k.a, k.b, nll(exp(p)), k.fa)
            else
              p == High(ratio, k.a, k.hi)
              && Shrunk(nll, exp, ratio, k) == Bracket(k.a, k.b, p, k.hi, k.fb, nll(exp(p)))
  {
  }

  lemma {:induction false} Settled(nll: real -> real, exp: real -> real, ratio: real)
    ensures var k := BracketAfter(nll, exp, ratio, STEPS); LogTemperature(nll, exp, ratio) == (k.lo + k.hi) / 2.0
  {
    hide BracketAfter;
  }
}
