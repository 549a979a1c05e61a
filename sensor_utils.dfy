/**
 * The sensor helper routines, over exact reals: comparisons, the argument
 * guards in front of each formula, and the averaging loops.  Logarithms
 * and powers of ten are passed in as functions; square roots are not
 * modelled (see README).
 */
module SensorUtils {
  import opened Common

  function Abs(x: real): (r: real)
    ensures r >= 0.0 && (r == x || r == -x)
  {
    if x < 0.0 then -x else x
  }

  /** The median of three readings: one of them, with at least two readings on each side of it. */
  function MedianOfThree(a: real, b: real, c: real): (m: real)
    ensures m == a || m == b || m == c
    ensures (a <= m && b <= m) || (a <= m && c <= m) || (b <= m && c <= m)
    ensures (a >= m && b >= m) || (a >= m && c >= m) || (b >= m && c >= m)
  {
    if a > b then
      if b > c then b
      else if a > c then c
      else a
    else
      if a > c then a
      else if b > c then c
      else b
  }

  /** The median does not depend on the order of the readings. */
  lemma MedianSymmetric(a: real, b: real, c: real)
    ensures MedianOfThree(a, b, c) == MedianOfThree(b, a, c)
    ensures MedianOfThree(a, b, c) == MedianOfThree(a, c, b)
    ensures MedianOfThree(a, b, c) == MedianOfThree(c, b, a)
  {
  }

  /** Inclusive at both ends. */
  predicate IsInRange(value: real, minVal: real, maxVal: real)
  {
    value >= minVal && value <= maxVal
  }

  /** Below the range gives `minVal`, above it `maxVal`; the lower bound is tested first. */
  function Clamp(value: real, minVal: real, maxVal: real): (r: real)
    ensures minVal <= maxVal ==> IsInRange(r, minVal, maxVal)
    ensures IsInRange(value, minVal, maxVal) ==> r == value
    ensures value < minVal ==> r == minVal
    ensures minVal <= value && value > maxVal ==> r == maxVal
  {
    if value < minVal then minVal
    else if value > maxVal then maxVal
    else value
  }

  /** With a proper range, clamping leaves a value alone exactly when it is in range. */
  lemma ClampFixesExactlyInRange(value: real, minVal: real, maxVal: real)
    requires minVal <= maxVal
    ensures Clamp(value, minVal, maxVal) == value <==> IsInRange(value, minVal, maxVal)
    ensures Clamp(Clamp(value, minVal, maxVal), minVal, maxVal) == Clamp(value, minVal, maxVal)
  {
  }

  const DefaultAlpha: real := 0.3

  lemma MulNonNegative(x: real, y: real)
    requires x >= 0.0 && y >= 0.0
    ensures x * y >= 0.0
  {
  }

  /** `a * newValue + (1 - a) * oldValue`: for `a` in [0, 1], a value between the two. */
  function Blend(newValue: real, oldValue: real, a: real): (r: real)
    requires 0.0 <= a <= 1.0
    ensures (oldValue <= r <= newValue) || (newValue <= r <= oldValue)
  {
    var r := a * newValue + (1.0 - a) * oldValue;
    BlendBetween(newValue, oldValue, a, r);
    r
  }

  lemma BlendBetween(newValue: real, oldValue: real, a: real, r: real)
    requires 0.0 <= a <= 1.0
    requires r == a * newValue + (1.0 - a) * oldValue
    ensures (oldValue <= r <= newValue) || (newValue <= r <= oldValue)
  {
    var d := newValue - oldValue;
    assert a * newValue + (1.0 - a) * oldValue == oldValue + a * d;
    if d >= 0.0 {
      MulNonNegative(a, d);
      MulNonNegative(1.0 - a, d);
      assert d - a * d == (1.0 - a) * d;
    } else {
      MulNonNegative(a, -d);
      MulNonNegative(1.0 - a, -d);
      assert a * (-d) == -(a * d);
      assert (1.0 - a) * (-d) == a * d - d;
    }
  }

  /**
   * Exponential moving average; a smoothing factor outside [0, 1] is
   * replaced by 0.3, so the result always lies between the two inputs.
   */
  function ApplyEMA(newValue: real, oldValue: real, alpha: real): (r: real)
    ensures (oldValue <= r <= newValue) || (newValue <= r <= oldValue)
    ensures (alpha < 0.0 || alpha > 1.0) ==> r == DefaultAlpha * newValue + (1.0 - DefaultAlpha) * oldValue
    ensures alpha == 1.0 ==> r == newValue
    ensures alpha == 0.0 ==> r == oldValue
  {
    Blend(newValue, oldValue, if alpha < 0.0 || alpha > 1.0 then DefaultAlpha else alpha)
  }

  lemma DivideZero(x: real)
    requires x != 0.0
    ensures 0.0 / x == 0.0
  {
  }

  lemma DivideSelf(x: real)
    requires x != 0.0
    ensures x / x == 1.0
  {
  }

  /** Linear map of `[inMin, inMax]` onto `[outMin, outMax]`; a degenerate input range maps to `outMin`. */
  function MapRange(value: real, inMin: real, inMax: real, outMin: real, outMax: real): (r: real)
    ensures inMax == inMin ==> r == outMin
    ensures inMax != inMin && value == inMin ==> r == outMin
    ensures inMax != inMin && value == inMax ==> r == outMax
  {
    if inMax == inMin then outMin
    else
      var normalized := (value - inMin) / (inMax - inMin);
      assert value == inMin ==> normalized == 0.0 by {
        if value == inMin {
          DivideZero(inMax - inMin);
        }
      }
      assert value == inMax ==> normalized == 1.0 by {
        if value == inMax {
          DivideSelf(inMax - inMin);
        }
      }
      normalized * (outMax - outMin) + outMin
  }

  /** What the power-law converters return for an input they refuse. */
  const Rejected: real := -1.0

  /**
   * `resistanceRatioToPPM`: a ratio that is not positive is refused; a
   * positive one goes through the power law
   * `ppm = 10^((log10(ratio) - intercept) / slope)`.  The logarithm and the
   * power of ten are passed in as `log10` and `pow10`.
   */
  function ResistanceRatioToPPM(ratio: real, slope: real, intercept: real,
                                log10: real -> real, pow10: real -> real): (ppm: real)
    requires slope != 0.0
    ensures ratio <= 0.0 ==> ppm == Rejected
    ensures ratio > 0.0 ==> ppm == pow10((log10(ratio) - intercept) / slope)
  {
    if ratio <= 0.0 then Rejected
    else
      var logPpm := (log10(ratio) - intercept) / slope;
      pow10(logPpm)
  }

  /** `ppmToResistanceRatio`: the inverse power law `ratio = 10^(slope * log10(ppm) + intercept)`. */
  function PPMToResistanceRatio(ppm: real, slope: real, intercept: real,
                                log10: real -> real, pow10: real -> real): (ratio: real)
    ensures ppm <= 0.0 ==> ratio == Rejected
    ensures ppm > 0.0 ==> ratio == pow10(slope * log10(ppm) + intercept)
  {
    if ppm <= 0.0 then Rejected
    else
      var logRatio := slope * log10(ppm) + intercept;
      pow10(logRatio)
  }

  /**
   * With `log10` and `pow10` inverse to each other and powers positive, the
   * two conversions undo each other on every positive ratio.
   */
  lemma ConversionRoundTrip(ratio: real, slope: real, intercept: real,
                            log10: real -> real, pow10: real -> real)
    requires ratio > 0.0 && slope != 0.0
    requires forall x :: x > 0.0 ==> pow10(log10(x)) == x
    requires forall y :: log10(pow10(y)) == y
    requires forall y :: pow10(y) > 0.0
    ensures PPMToResistanceRatio(ResistanceRatioToPPM(ratio, slope, intercept, log10, pow10),
                                 slope, intercept, log10, pow10) == ratio
  {
    var e := (log10(ratio) - intercept) / slope;
    var ppm := pow10(e);
    assert log10(ppm) == e;
    RatioRecovered(ratio, slope, intercept, log10, pow10, ppm);
  }

  /** The exponent step of the round trip, once the instances it needs are known. */
  lemma RatioRecovered(ratio: real, slope: real, intercept: real,
                       log10: real -> real, pow10: real -> real, ppm: real)
    requires ratio > 0.0 && slope != 0.0 && ppm > 0.0
    requires ppm == ResistanceRatioToPPM(ratio, slope, intercept, log10, pow10)
    requires log10(ppm) == (log10(ratio) - intercept) / slope
    requires pow10(log10(ratio)) == ratio
    ensures PPMToResistanceRatio(ppm, slope, intercept, log10, pow10) == ratio
  {
    assert slope * log10(ppm) + intercept == log10(ratio);
  }

  /** Sum of squared deviations from `center`, accumulated from the front. */
  function SquaredDeviations(s: seq<real>, center: real): (r: real)
    ensures r >= 0.0
  {
    if s == [] then 0.0
    else
      var d := s[|s| - 1] - center;
      assert d * d >= 0.0 by {
        if d < 0.0 {
          assert d * d == (-d) * (-d);
        }
      }
      SquaredDeviations(s[..|s| - 1], center) + d * d
  }

  /** The sample variance (divisor `n - 1`): the square of what `calculateStdDev` returns. */
  function SampleVariance(s: seq<real>): (v: real)
    requires |s| > 1
    ensures v >= 0.0
  {
    SquaredDeviations(s, Mean(s)) / (|s| - 1) as real
  }

  /** All readings equal: no spread at all. */
  lemma {:induction false} ConstantHasNoDeviation(s: seq<real>, x: real)
    requires forall i :: 0 <= i < |s| ==> s[i] == x
    ensures SquaredDeviations(s, x) == 0.0
  {
    if s != [] {
      ConstantHasNoDeviation(s[..|s| - 1], x);
    }
  }

  /** Mean of the first `count` values; 0 for a null array or a count that is not positive. */
  method CalculateMovingAverage(values: array?<real>, count: int) returns (avg: real)
    requires values != null && count > 0 ==> count <= values.Length
    ensures count <= 0 || values == null ==> avg == 0.0
    ensures count > 0 && values != null ==> avg == Mean(values[..count])
  {
    if count <= 0 || values == null {
      return 0.0;
    }
    var sum := 0.0;
    var i := 0;
    while i < count
      invariant 0 <= i <= count
      invariant sum == Sum(values[..i])
    {
      assert values[..i + 1][..i] == values[..i];
      sum := sum + values[i];
      i := i + 1;
    }
    return sum / count as real;
  }

  /** Sample variance of the first `count` values; 0 for a null array or fewer than two values. */
  method CalculateVariance(values: array?<real>, count: int) returns (variance: real)
    requires values != null && count > 0 ==> count <= values.Length
    ensures count <= 1 || values == null ==> variance == 0.0
    ensures count > 1 && values != null ==> variance == SampleVariance(values[..count])
    ensures variance >= 0.0
  {
    if count <= 1 || values == null {
      return 0.0;
    }
    var mean := CalculateMovingAverage(values, count);
    variance := 0.0;
    var i := 0;
    while i < count
      invariant 0 <= i <= count
      invariant variance == SquaredDeviations(values[..i], mean)
    {
      assert values[..i + 1][..i] == values[..i];
      var diff := values[i] - mean;
      variance := variance + diff * diff;
      i := i + 1;
    }
    variance := variance / (count - 1) as real;
  }

  /**
   * The z-score test `|value - mean| / stddev > sigma`, squared so that no
   * root is needed; a sample with no spread has no outliers.
   */
  predicate ExceedsZScore(value: real, s: seq<real>, sigma: real)
    requires |s| > 1
  {
    SampleVariance(s) != 0.0
    && (sigma < 0.0 || (value - Mean(s)) * (value - Mean(s)) > sigma * sigma * SampleVariance(s))
  }

  lemma DivideAbove(a: real, d: real, c: real)
    requires d > 0.0
    ensures a / d > c <==> a > c * d
  {
    assert (a / d) * d == a;
    if a / d > c {
      assert (a / d) * d > c * d;
    } else {
      assert (a / d) * d <= c * d;
    }
  }

  lemma MulPositive(x: real, y: real)
    requires x > 0.0 && y > 0.0
    ensures x * y > 0.0
  {
  }

  /** Squaring preserves the order of non-negative numbers. */
  lemma SquareMonotone(a: real, b: real)
    requires a >= 0.0 && b >= 0.0
    ensures a > b <==> a * a > b * b
  {
    assert a * a - b * b == (a + b) * (a - b);
    if a > b {
      MulPositive(a + b, a - b);
    } else {
      MulNonNegative(a + b, b - a);
      assert (a + b) * (b - a) == -((a + b) * (a - b));
    }
  }

  /** For every positive standard deviation, the squared test is the z-score test itself. */
  lemma ZScoreWithoutRoot(deviation: real, stdDev: real, sigma: real)
    requires stdDev > 0.0
    ensures Abs(deviation) / stdDev > sigma
            <==> sigma < 0.0 || deviation * deviation > sigma * sigma * (stdDev * stdDev)
  {
    DivideAbove(Abs(deviation), stdDev, sigma);
    assert deviation * deviation == Abs(deviation) * Abs(deviation);
    if sigma >= 0.0 {
      MulNonNegative(sigma, stdDev);
      SquareMonotone(Abs(deviation), sigma * stdDev);
      assert (sigma * stdDev) * (sigma * stdDev) == sigma * sigma * (stdDev * stdDev);
    } else {
      assert sigma * stdDev < 0.0;
    }
  }

  /** Whether `value` is more than `sigma` standard deviations from the mean of the first `count` values. */
  method IsOutlier(value: real, values: array?<real>, count: int, sigma: real) returns (outlier: bool)
    requires values != null && count > 0 ==> count <= values.Length
    ensures count < 3 || values == null ==> !outlier
    ensures count >= 3 && values != null ==> (outlier <==> ExceedsZScore(value, values[..count], sigma))
  {
    if count < 3 || values == null {
      return false;
    }
    var mean := CalculateMovingAverage(values, count);
    var variance := CalculateVariance(values, count);
    if variance == 0.0 {
      return false;
    }
    var deviation := value - mean;
    outlier := sigma < 0.0 || deviation * deviation > sigma * sigma * variance;
  }
}
