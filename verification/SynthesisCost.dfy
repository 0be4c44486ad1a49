/**
 * Fitting a local runner's cost: elapsed = fixed + marginal * audio, by least
 * squares, over exact reals.
 */
module SynthesisCost {
  import opened Prelude

  datatype CostSample = CostSample(audioSeconds: real, elapsedSeconds: real)

  datatype Cost = Cost(fixedSeconds: real, marginalRtf: real)

  datatype FitError = TooFewSamples | AllSameLength

  // The five sums of the normal equations, as left folds.

  function SumX(s: seq<CostSample>): real {
    if s == [] then 0.0 else SumX(s[..|s| - 1]) + s[|s| - 1].audioSeconds
  }

  function SumY(s: seq<CostSample>): real {
    if s == [] then 0.0 else SumY(s[..|s| - 1]) + s[|s| - 1].elapsedSeconds
  }

  function SumXX(s: seq<CostSample>): real {
    if s == [] then 0.0 else SumXX(s[..|s| - 1]) + s[|s| - 1].audioSeconds * s[|s| - 1].audioSeconds
  }

  function SumXY(s: seq<CostSample>): real {
    if s == [] then 0.0 else SumXY(s[..|s| - 1]) + s[|s| - 1].audioSeconds * s[|s| - 1].elapsedSeconds
  }

  function Denominator(s: seq<CostSample>): real {
    |s| as real * SumXX(s) - SumX(s) * SumX(s)
  }

  function FitSynthesisCost(samples: seq<CostSample>): Result<Cost, FitError> {
    if |samples| < 2 then Err(TooFewSamples)
    else
      var n := |samples| as real;
      var denominator := Denominator(samples);
      if denominator == 0.0 then Err(AllSameLength)
      else
        var marginal := Slope(n, SumX(samples), SumY(samples), SumXY(samples), denominator);
        Ok(Cost(Intercept(n, SumX(samples), SumY(samples), marginal), marginal))
  }

  function Slope(n: real, sx: real, sy: real, sxy: real, denominator: real): real
    requires denominator != 0.0
  {
    (n * sxy - sx * sy) / denominator
  }

  function Intercept(n: real, sx: real, sy: real, slope: real): real
    requires n != 0.0
  {
    (sy - slope * sx) / n
  }

  function ProjectRenderSeconds(cost: Cost, audioSeconds: real, segments: int): real {
    segments as real * cost.fixedSeconds + cost.marginalRtf * audioSeconds
  }

  function Times(x: real, y: real): real { x * y }

  function Square(x: real): real { Times(x, x) }

  lemma TimesPositive(x: real, y: real)
    requires x > 0.0 && y > 0.0
    ensures Times(x, y) > 0.0
  {
  }

  lemma SquareOfNegative(x: real)
    ensures Square(-x) == Square(x)
    ensures Square(0.0) == 0.0
  {
  }

  lemma SquareSign(x: real)
    ensures Square(x) >= 0.0
    ensures Square(x) == 0.0 <==> x == 0.0
  {
    hide Times;
    SquareOfNegative(x);
    if x > 0.0 {
      TimesPositive(x, x);
    } else if x < 0.0 {
      TimesPositive(-x, -x);
    }
  }

  // ------------------------------------------------------- what is minimised

  /** How far a measured run lies above what the cost model projects for it as one call. */
  function Residual(cost: Cost, sample: CostSample): real {
    sample.elapsedSeconds - ProjectRenderSeconds(cost, sample.audioSeconds, 1)
  }

  function SquaredError(cost: Cost, s: seq<CostSample>): real {
    if s == [] then 0.0
    else SquaredError(cost, s[..|s| - 1]) + Square(Residual(cost, s[|s| - 1]))
  }

  ghost predicate AllEqual(s: seq<CostSample>) {
    forall i, j | 0 <= i < j < |s| :: s[i].audioSeconds == s[j].audioSeconds
  }

  // ------------------------------------------------------------- denominator

  /** Sum of the squared distances of `x` to the audio lengths. */
  function Spread(s: seq<CostSample>, x: real): real {
    if s == [] then 0.0
    else Spread(s[..|s| - 1], x) + Square(s[|s| - 1].audioSeconds - x)
  }

  /** `n x^2 - 2 x sum(x_i) + sum(x_i^2)`, the expanded form of the spread. */
  function Expanded(x: real, n: real, sx: real, sxx: real): real {
    sxx - 2.0 * (x * sx) + n * Square(x)
  }

  lemma {:induction false} SpreadIs(s: seq<CostSample>, x: real)
    ensures Spread(s, x) == Expanded(x, |s| as real, SumX(s), SumXX(s))
  {
    hide Square, Expanded;
    if s == [] {
      ExpandedNothing(x);
    } else {
      var t := s[..|s| - 1];
      SpreadIs(t, x);
      ExpandedStep(x, |t| as real, SumX(t), SumXX(t), s[|s| - 1].audioSeconds, |s| as real, SumX(s), SumXX(s));
    }
  }

  lemma ExpandedNothing(x: real)
    ensures Expanded(x, 0.0, 0.0, 0.0) == 0.0
  {
  }

  lemma ExpandedStep(x: real, n: real, sx: real, sxx: real, y: real, n': real, sx': real, sxx': real)
    requires n' == n + 1.0 && sx' == sx + y && sxx' == sxx + y * y
    ensures Expanded(x, n', sx', sxx') == Expanded(x, n, sx, sxx) + Square(y - x)
  {
  }

  lemma {:induction false} SpreadSign(s: seq<CostSample>, x: real)
    ensures Spread(s, x) >= 0.0
    ensures Spread(s, x) == 0.0 <==> forall i | 0 <= i < |s| :: s[i].audioSeconds == x
  {
    hide Square;
    if s != [] {
      var t, y := s[..|s| - 1], s[|s| - 1].audioSeconds;
      SpreadSign(t, x);
      SquareSign(y - x);
      assert forall i | 0 <= i < |t| :: t[i] == s[i];
    }
  }

  /** One more sample adds its spread around the earlier ones. */
  lemma DenominatorStep(s: seq<CostSample>)
    requires s != []
    ensures Denominator(s) == Denominator(s[..|s| - 1]) + Spread(s[..|s| - 1], s[|s| - 1].audioSeconds)
  {
    hide Square, Expanded;
    var t := s[..|s| - 1];
    var y := s[|s| - 1].audioSeconds;
    SpreadIs(t, y);
    DenominatorAlgebra(|t| as real, SumX(t), SumXX(t), y, |s| as real, SumX(s), SumXX(s));
  }

  lemma DenominatorAlgebra(n: real, sx: real, sxx: real, y: real, n': real, sx': real, sxx': real)
    requires n' == n + 1.0 && sx' == sx + y && sxx' == sxx + y * y
    ensures n' * sxx' - sx' * sx' == n * sxx - sx * sx + Expanded(y, n, sx, sxx)
  {
  }

  /** The denominator is nonnegative, and zero exactly when every sample has the same audio length. */
  lemma {:induction false} DenominatorSign(s: seq<CostSample>)
    ensures Denominator(s) >= 0.0
    ensures Denominator(s) == 0.0 <==> AllEqual(s)
  {
    if s != [] {
      var t := s[..|s| - 1];
      DenominatorSign(t);
      DenominatorStep(s);
      SpreadSign(t, s[|s| - 1].audioSeconds);
      assert forall i | 0 <= i < |t| :: t[i] == s[i];
      if AllEqual(s) {
        assert AllEqual(t) by {
          forall i, j | 0 <= i < j < |t| ensures t[i].audioSeconds == t[j].audioSeconds {
            assert s[i].audioSeconds == s[j].audioSeconds;
          }
        }
      }
    }
  }

  /** The fit fails exactly for fewer than two samples, or for samples all of one length. */
  lemma {:induction false} FitFailsIff(samples: seq<CostSample>)
    ensures FitSynthesisCost(samples) == Err(TooFewSamples) <==> |samples| < 2
    ensures FitSynthesisCost(samples) == Err(AllSameLength) <==> |samples| >= 2 && AllEqual(samples)
  {
    DenominatorSign(samples);
  }

  // -------------------------------------------------------------- optimality

  /** The gradient of the squared error, up to a factor -2: plain and audio-weighted residual sums. */
  function ResidualSum(cost: Cost, s: seq<CostSample>): real {
    PlainSum(|s| as real, SumX(s), SumY(s), cost)
  }

  function WeightedResidualSum(cost: Cost, s: seq<CostSample>): real {
    WeightedSum(SumX(s), SumXX(s), SumXY(s), cost)
  }

  function PlainSum(n: real, sx: real, sy: real, c: Cost): real {
    sy - n * c.fixedSeconds - c.marginalRtf * sx
  }

  function WeightedSum(sx: real, sxx: real, sxy: real, c: Cost): real {
    sxy - c.fixedSeconds * sx - c.marginalRtf * sxx
  }

  /** Moving the cost by (df, dm) changes the squared error by a gradient term and a square term. */
  lemma {:induction false} ErrorExpansion(c: Cost, df: real, dm: real, s: seq<CostSample>)
    ensures var moved := Cost(c.fixedSeconds + df, c.marginalRtf + dm);
            SquaredError(moved, s) == SquaredError(c, s) +
              Expansion(df, dm, ResidualSum(c, s), WeightedResidualSum(c, s), |s| as real, SumX(s), SumXX(s))
  {
    hide Expansion, Square, Residual, ResidualSum, WeightedResidualSum;
    if s == [] {
      ExpansionOfNothing(c, df, dm);
    } else {
      var t, z := s[..|s| - 1], s[|s| - 1];
      var moved := Cost(c.fixedSeconds + df, c.marginalRtf + dm);
      ErrorExpansion(c, df, dm, t);
      SumsStep(c, s);
      MovedResidual(c, df, dm, z);
      ExpansionStep(df, dm, ResidualSum(c, t), WeightedResidualSum(c, t), |t| as real, SumX(t), SumXX(t),
                    z.audioSeconds, Residual(c, z), Residual(moved, z),
                    ResidualSum(c, s), WeightedResidualSum(c, s), |s| as real, SumX(s), SumXX(s));
    }
  }

  /** The gradient term and the square term, for residual sums `rs`, `ws` and audio sums `n`, `sx`, `sxx`. */
  function Expansion(df: real, dm: real, rs: real, ws: real, n: real, sx: real, sxx: real): real {
    -2.0 * (df * rs + dm * ws) + n * (df * df) + 2.0 * ((df * dm) * sx) + (dm * dm) * sxx
  }

  lemma ExpansionOfNothing(c: Cost, df: real, dm: real)
    ensures Expansion(df, dm, ResidualSum(c, []), WeightedResidualSum(c, []), 0.0, 0.0, 0.0) == 0.0
  {
    assert ResidualSum(c, []) == 0.0 && WeightedResidualSum(c, []) == 0.0;
  }

  lemma ExpansionStep(df: real, dm: real, rs: real, ws: real, n: real, sx: real, sxx: real, x: real, r: real, r': real,
                      rs': real, ws': real, n': real, sx': real, sxx': real)
    requires r' == r - (df + dm * x)
    requires rs' == rs + r && ws' == ws + x * r && n' == n + 1.0 && sx' == sx + x && sxx' == sxx + x * x
    ensures Expansion(df, dm, rs', ws', n', sx', sxx')
            == Expansion(df, dm, rs, ws, n, sx, sxx) + (Square(r') - Square(r))
  {
  }

  lemma MovedResidual(c: Cost, df: real, dm: real, z: CostSample)
    ensures Residual(Cost(c.fixedSeconds + df, c.marginalRtf + dm), z) == Residual(c, z) - (df + dm * z.audioSeconds)
  {
  }

  lemma SumsStep(c: Cost, s: seq<CostSample>)
    requires s != []
    ensures var t, z := s[..|s| - 1], s[|s| - 1];
            && ResidualSum(c, s) == ResidualSum(c, t) + Residual(c, z)
            && WeightedResidualSum(c, s) == WeightedResidualSum(c, t) + z.audioSeconds * Residual(c, z)
  {
    hide PlainSum, WeightedSum, Residual;
    var t, z := s[..|s| - 1], s[|s| - 1];
    PlainStep(|t| as real, SumX(t), SumY(t), z, c, |s| as real, SumX(s), SumY(s));
    WeightedStep(SumX(t), SumXX(t), SumXY(t), z, c, SumX(s), SumXX(s), SumXY(s));
  }

  lemma PlainStep(n: real, sx: real, sy: real, z: CostSample, c: Cost, n': real, sx': real, sy': real)
    requires n' == n + 1.0 && sx' == sx + z.audioSeconds && sy' == sy + z.elapsedSeconds
    ensures PlainSum(n', sx', sy', c) == PlainSum(n, sx, sy, c) + Residual(c, z)
  {
  }

  lemma WeightedStep(sx: real, sxx: real, sxy: real, z: CostSample, c: Cost, sx': real, sxx': real, sxy': real)
    requires sx' == sx + z.audioSeconds && sxx' == sxx + z.audioSeconds * z.audioSeconds
    requires sxy' == sxy + z.audioSeconds * z.elapsedSeconds
    ensures WeightedSum(sx', sxx', sxy', c) == WeightedSum(sx, sxx, sxy, c) + z.audioSeconds * Residual(c, z)
  {
  }

  /** At the fitted cost both gradient components vanish. */
  lemma {:induction false} NormalEquations(s: seq<CostSample>)
    requires FitSynthesisCost(s).Ok?
    ensures ResidualSum(FitSynthesisCost(s).value, s) == 0.0
    ensures WeightedResidualSum(FitSynthesisCost(s).value, s) == 0.0
  {
    hide PlainSum, WeightedSum, Slope, Intercept;
    Solve(|s| as real, SumX(s), SumY(s), SumXX(s), SumXY(s), Denominator(s), FitSynthesisCost(s).value);
  }

  lemma Solve(n: real, sx: real, sy: real, sxx: real, sxy: real, den: real, c: Cost)
    requires n > 0.0 && den == n * sxx - sx * sx && den != 0.0
    requires c.marginalRtf == Slope(n, sx, sy, sxy, den) && c.fixedSeconds == Intercept(n, sx, sy, c.marginalRtf)
    ensures PlainSum(n, sx, sy, c) == 0.0
    ensures WeightedSum(sx, sxx, sxy, c) == 0.0
  {
    Quotient(sy - c.marginalRtf * sx, n, c.fixedSeconds);
    Quotient(n * sxy - sx * sy, den, c.marginalRtf);
    Eliminate(n, sx, sy, sxx, sxy, c.fixedSeconds, c.marginalRtf);
  }

  lemma Quotient(a: real, b: real, q: real)
    requires b != 0.0 && q == a / b
    ensures b * q == a
  {
  }

  lemma Eliminate(n: real, sx: real, sy: real, sxx: real, sxy: real, f: real, m: real)
    requires n > 0.0 && n * f == sy - m * sx && (n * sxx - sx * sx) * m == n * sxy - sx * sy
    ensures sxy - f * sx - m * sxx == 0.0
  {
    var e := sxy - f * sx - m * sxx;
    assert n * e == n * sxy - (n * f) * sx - m * (n * sxx);
    assert (sy - m * sx) * sx == sx * sy - m * (sx * sx);
    assert (n * sxx - sx * sx) * m == m * (n * sxx) - m * (sx * sx);
    assert n * e == 0.0;
  }

  /** The square term of the expansion, completed to squares over the denominator. */
  lemma QuadraticForm(n: real, sx: real, sxx: real, df: real, dm: real)
    requires n > 0.0
    ensures n * (n * (df * df) + 2.0 * ((df * dm) * sx) + (dm * dm) * sxx)
            == Square(n * df + sx * dm) + Square(dm) * (n * sxx - sx * sx)
  {
    var p, q := n * df, sx * dm;
    assert (p + q) * (p + q) == p * p + 2.0 * (p * q) + q * q;
    assert p * p == n * (n * (df * df));
    assert p * q == n * ((df * dm) * sx);
    assert q * q == (dm * dm) * (sx * sx);
    assert (dm * dm) * (n * sxx - sx * sx) == n * ((dm * dm) * sxx) - (dm * dm) * (sx * sx);
    var u, v, w := n * (df * df), (df * dm) * sx, (dm * dm) * sxx;
    assert n * (u + 2.0 * v + w) == n * u + 2.0 * (n * v) + n * w;
  }

  /**
   * Optimality. For samples not all of one length the fit succeeds, no
   * (fixed, marginal) pair has a smaller sum of squared residuals, and no other
   * pair attains it.
   */
  lemma {:induction false} FitIsOptimal(s: seq<CostSample>, other: Cost)
    requires |s| >= 2 && !AllEqual(s)
    ensures FitSynthesisCost(s).Ok?
    ensures SquaredError(FitSynthesisCost(s).value, s) <= SquaredError(other, s)
    ensures SquaredError(FitSynthesisCost(s).value, s) == SquaredError(other, s) <==> other == FitSynthesisCost(s).value
  {
    FitFailsIff(s);
    hide Denominator, Slope, Intercept, AllEqual, SquaredError;
    FitBeats(s, other);
  }

  lemma {:induction false} FitBeats(s: seq<CostSample>, other: Cost)
    requires FitSynthesisCost(s).Ok?
    ensures SquaredError(FitSynthesisCost(s).value, s) <= SquaredError(other, s)
    ensures SquaredError(FitSynthesisCost(s).value, s) == SquaredError(other, s) <==> other == FitSynthesisCost(s).value
  {
    hide Expansion, SquaredError, SumX, SumXX, ResidualSum, WeightedResidualSum;
    var fit := FitSynthesisCost(s).value;
    var df, dm := other.fixedSeconds - fit.fixedSeconds, other.marginalRtf - fit.marginalRtf;
    var n, sx, sxx := |s| as real, SumX(s), SumXX(s);
    NormalEquations(s);
    ErrorExpansion(fit, df, dm, s);
    assert other == Cost(fit.fixedSeconds + df, fit.marginalRtf + dm);
    var gap := SquaredError(other, s) - SquaredError(fit, s);
    var form := n * (df * df) + 2.0 * ((df * dm) * sx) + (dm * dm) * sxx;
    assert gap == Expansion(df, dm, 0.0, 0.0, n, sx, sxx);
    AtTheOptimum(df, dm, n, sx, sxx);
    QuadraticForm(n, sx, sxx, df, dm);
    DenominatorSign(s);
    PositiveDefinite(n, n * df + sx * dm, dm, Denominator(s), form);
    if gap == 0.0 {
      assert dm == 0.0 && n * df == 0.0;
      assert df == 0.0;
    }
  }

  lemma AtTheOptimum(df: real, dm: real, n: real, sx: real, sxx: real)
    ensures Expansion(df, dm, 0.0, 0.0, n, sx, sxx) == n * (df * df) + 2.0 * ((df * dm) * sx) + (dm * dm) * sxx
  {
  }

  lemma PositiveDefinite(n: real, p: real, dm: real, den: real, form: real)
    requires n > 0.0 && den > 0.0 && n * form == Square(p) + Square(dm) * den
    ensures form >= 0.0
    ensures form == 0.0 ==> dm == 0.0 && p == 0.0
  {
    hide Square;
    SquareSign(p);
    SquareSign(dm);
    Scaled(Square(dm), den);
    Scaled(form, n);
  }

  /** A positive factor keeps the sign. */
  lemma Scaled(a: real, k: real)
    requires k > 0.0
    ensures a * k > 0.0 <==> a > 0.0
    ensures a * k == 0.0 <==> a == 0.0
  {
    if a > 0.0 {
      assert a * k > 0.0;
    } else if a < 0.0 {
      assert a * k < 0.0;
    }
  }

  /** Measurements that lie on a line are recovered exactly, so a projection from them is exact. */
  lemma {:induction false} ExactDataIsRecovered(s: seq<CostSample>, truth: Cost)
    requires |s| >= 2 && !AllEqual(s)
    requires forall i | 0 <= i < |s| :: Residual(truth, s[i]) == 0.0
    ensures FitSynthesisCost(s) == Ok(truth)
  {
    FitIsOptimal(s, truth);
    hide *;
    ZeroError(s, truth);
    ErrorNonnegative(s, FitSynthesisCost(s).value);
  }

  lemma {:induction false} ZeroError(s: seq<CostSample>, c: Cost)
    requires forall i | 0 <= i < |s| :: Residual(c, s[i]) == 0.0
    ensures SquaredError(c, s) == 0.0
  {
    if s != [] {
      assert forall i | 0 <= i < |s| - 1 :: s[..|s| - 1][i] == s[i];
      ZeroError(s[..|s| - 1], c);
    }
  }

  lemma {:induction false} ErrorNonnegative(s: seq<CostSample>, c: Cost)
    ensures SquaredError(c, s) >= 0.0
  {
    if s != [] {
      ErrorNonnegative(s[..|s| - 1], c);
      SquareSign(Residual(c, s[|s| - 1]));
    }
  }

  // ------------------------------------------------------------- projecting

  /** What the calls of a render take one by one. */
  ghost function OneByOne(cost: Cost, calls: seq<real>): real {
    if calls == [] then 0.0
    else OneByOne(cost, calls[..|calls| - 1]) + (cost.fixedSeconds + cost.marginalRtf * calls[|calls| - 1])
  }

  /** Projecting a render cut into calls is projecting each call and adding up: each call pays the fixed part anew. */
  lemma {:induction false} ProjectionAddsUp(cost: Cost, calls: seq<real>)
    ensures ProjectRenderSeconds(cost, SumReal(calls), |calls|) == OneByOne(cost, calls)
  {
    if calls != [] {
      ProjectionAddsUp(cost, calls[..|calls| - 1]);
    }
  }
}
