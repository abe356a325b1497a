/**
 * Ratio arithmetic: the conversions between a column's pixel width and its
 * percentage of the table width, and the decimal rounding applied to both.
 * Numbers are exact reals; the rounding of `roundTo` is written out.
 */
module Ratios {

  /** From this magnitude on, `toFixed` prints exponent notation and the value comes back unrounded. */
  const FixedNotationLimit: real := 1000000000000000000000.0

  function Abs(x: real): real {
    if x < 0.0 then -x else x
  }

  function Max(a: real, b: real): (m: real)
    ensures m >= a && m >= b && (m == a || m == b)
  {
    if a >= b then a else b
  }

  /** Ten to the power 10 (every call of `roundTo` passes 10 decimals): one unit of the last kept decimal is `1 / Scale`. */
  const Scale: real := 10000000000.0

  /** The largest error a rounding to 10 decimals can make. */
  const HalfUnit: real := 0.00000000005

  /** Rounds a non-negative magnitude to 10 decimals, halves going up. */
  function RoundMagnitude(x: real): (r: real)
    requires x >= 0.0
    ensures r >= 0.0
    ensures Abs(r - x) <= HalfUnit
  {
    (x * Scale + 0.5).Floor as real / Scale
  }

  /**
   * `roundTo(x, 10)`, that is `parseFloat(x.toFixed(10))`: the magnitude is
   * rounded to 10 decimals with halves going away from zero, and
   * magnitudes of 1e21 or more are returned as they are.
   */
  function RoundTo(x: real): (r: real)
    ensures Abs(r - x) <= HalfUnit
    ensures x >= 0.0 ==> r >= 0.0
    ensures x <= 0.0 ==> r <= 0.0
  {
    if Abs(x) >= FixedNotationLimit then x
    else if x < 0.0 then -RoundMagnitude(-x)
    else RoundMagnitude(x)
  }

  /** A value that rounding to 10 decimals leaves unchanged. */
  predicate OnGrid(x: real) {
    RoundTo(x) == x
  }

  lemma RoundMagnitudeOfMultiple(n: int)
    requires n >= 0
    ensures RoundMagnitude(n as real / Scale) == n as real / Scale
  {
    assert (n as real / Scale * Scale + 0.5).Floor == n;
  }

  /** Rounding twice is rounding once: every rounded value is on the grid. */
  lemma {:induction false} RoundToIdempotent(x: real)
    ensures OnGrid(RoundTo(x))
  {
    var r := RoundTo(x);
    if Abs(x) >= FixedNotationLimit || Abs(r) >= FixedNotationLimit {
    } else if x < 0.0 {
      var n := (-x * Scale + 0.5).Floor;
      assert r == -(n as real / Scale);
      RoundMagnitudeOfMultiple(n);
    } else {
      var n := (x * Scale + 0.5).Floor;
      assert r == n as real / Scale;
      RoundMagnitudeOfMultiple(n);
    }
  }

  lemma RoundMagnitudeMonotone(x: real, y: real)
    requires 0.0 <= x <= y
    ensures RoundMagnitude(x) <= RoundMagnitude(y)
  {
    assert x * Scale + 0.5 <= y * Scale + 0.5;
    var n, m := (x * Scale + 0.5).Floor, (y * Scale + 0.5).Floor;
    assert n <= m;
    assert n as real / Scale <= m as real / Scale;
  }

  /** Rounding never reorders two values. */
  lemma {:induction false} RoundToMonotone(x: real, y: real)
    requires x <= y
    ensures RoundTo(x) <= RoundTo(y)
  {
    var limit := FixedNotationLimit;
    assert RoundMagnitude(limit) == limit;
    if x < 0.0 && y < 0.0 {
      if Abs(y) < limit {
        RoundMagnitudeMonotone(-y, if -x < limit then -x else limit);
      }
    } else if x >= 0.0 {
      if Abs(x) < limit {
        RoundMagnitudeMonotone(x, if y < limit then y else limit);
      }
    } else {
      // x < 0 <= y: the rounded x is at most 0 and the rounded y at least 0
    }
  }

  /** Percentage of the table width that a width takes up, before rounding. */
  function ExactRatio(width: real, tableWidth: real): real
    requires tableWidth != 0.0
  {
    width / tableWidth * 100.0
  }

  /** Width that a percentage of the table width takes up, before rounding. */
  function ExactWidth(ratio: real, tableWidth: real): real {
    ratio * tableWidth / 100.0
  }

  /** `getColumnWidthFromRatio`: the width a ratio gives, rounded to 10 decimals. */
  function ColumnWidthFromRatio(ratio: real, tableWidth: real): (width: real)
    ensures Abs(width - ExactWidth(ratio, tableWidth)) <= HalfUnit
  {
    RoundTo(ratio * tableWidth / 100.0)
  }

  /** `getColumnRatioFromWidth`: the ratio a width gives, rounded to 10 decimals. */
  function ColumnRatioFromWidth(width: real, tableWidth: real): (ratio: real)
    requires tableWidth != 0.0
    ensures Abs(ratio - ExactRatio(width, tableWidth)) <= HalfUnit
    ensures width >= 0.0 && tableWidth > 0.0 ==> ratio >= 0.0
  {
    RoundTo(width / tableWidth * 100.0)
  }

  /** Without rounding, the two conversions are inverse to each other. */
  lemma ExactConversionsInverse(ratio: real, width: real, tableWidth: real)
    requires tableWidth != 0.0
    ensures ExactRatio(ExactWidth(ratio, tableWidth), tableWidth) == ratio
    ensures ExactWidth(ExactRatio(width, tableWidth), tableWidth) == width
  {
  }

  lemma MultiplyMonotone(a: real, b: real, k: real)
    requires a <= b && k >= 0.0
    ensures a * k <= b * k
  {
  }

  /** An error `e` scaled by `k`, on top of an error of at most `h`, stays within `h + h * k`. */
  lemma ScaledErrorsAdd(result: real, x: real, target: real, e: real, k: real, h: real)
    requires Abs(result - x) <= h && x - target == e * k && Abs(e) <= h && k > 0.0
    ensures Abs(result - target) <= h + h * k
  {
    MultiplyMonotone(e, h, k);
    MultiplyMonotone(-h, e, k);
    assert (-h) * k == -(h * k);
  }

  lemma RatioOfPerturbedWidth(ratio: real, w: real, e: real, tableWidth: real)
    requires tableWidth != 0.0
    requires w == ExactWidth(ratio, tableWidth) + e
    ensures ExactRatio(w, tableWidth) - ratio == e * (100.0 / tableWidth)
  {
    var x := ratio * tableWidth / 100.0;
    assert (x + e) / tableWidth == x / tableWidth + e / tableWidth;
    assert x / tableWidth * 100.0 == ratio;
  }

  lemma WidthOfPerturbedRatio(width: real, r: real, e: real, tableWidth: real)
    requires tableWidth != 0.0
    requires r == ExactRatio(width, tableWidth) + e
    ensures ExactWidth(r, tableWidth) - width == e * (tableWidth / 100.0)
  {
    var x := width / tableWidth * 100.0;
    assert (x + e) * tableWidth == x * tableWidth + e * tableWidth;
    assert x * tableWidth / 100.0 == width;
  }

  lemma PositiveQuotient(a: real, b: real)
    requires a > 0.0 && b > 0.0
    ensures a / b > 0.0
  {
  }

  lemma RatioWidthRoundTripBound(ratio: real, tableWidth: real, w: real, r: real)
    requires tableWidth > 0.0
    requires Abs(w - ExactWidth(ratio, tableWidth)) <= HalfUnit
    requires Abs(r - ExactRatio(w, tableWidth)) <= HalfUnit
    ensures Abs(r - ratio) <= HalfUnit + HalfUnit * (100.0 / tableWidth)
  {
    var k := 100.0 / tableWidth;
    var e := w - ExactWidth(ratio, tableWidth);
    PositiveQuotient(100.0, tableWidth);
    RatioOfPerturbedWidth(ratio, w, e, tableWidth);
    ScaledErrorsAdd(r, ExactRatio(w, tableWidth), ratio, e, k, HalfUnit);
  }

  lemma WidthRatioRoundTripBound(width: real, tableWidth: real, r: real, w: real)
    requires tableWidth > 0.0
    requires Abs(r - ExactRatio(width, tableWidth)) <= HalfUnit
    requires Abs(w - ExactWidth(r, tableWidth)) <= HalfUnit
    ensures Abs(w - width) <= HalfUnit + HalfUnit * (tableWidth / 100.0)
  {
    var k := tableWidth / 100.0;
    var e := r - ExactRatio(width, tableWidth);
    WidthOfPerturbedRatio(width, r, e, tableWidth);
    ScaledErrorsAdd(w, ExactWidth(r, tableWidth), width, e, k, HalfUnit);
  }

  /** Ratio to width and back to ratio returns the ratio, up to the two roundings. */
  lemma {:induction false} RatioWidthRoundTrip(ratio: real, tableWidth: real)
    requires tableWidth > 0.0
    ensures Abs(ColumnRatioFromWidth(ColumnWidthFromRatio(ratio, tableWidth), tableWidth) - ratio)
            <= HalfUnit + HalfUnit * (100.0 / tableWidth)
  {
    var w := ColumnWidthFromRatio(ratio, tableWidth);
    RatioWidthRoundTripBound(ratio, tableWidth, w, ColumnRatioFromWidth(w, tableWidth));
  }

  /** Width to ratio and back to width returns the width, up to the two roundings. */
  lemma {:induction false} WidthRatioRoundTrip(width: real, tableWidth: real)
    requires tableWidth > 0.0
    ensures Abs(ColumnWidthFromRatio(ColumnRatioFromWidth(width, tableWidth), tableWidth) - width)
            <= HalfUnit + HalfUnit * (tableWidth / 100.0)
  {
    var r := ColumnRatioFromWidth(width, tableWidth);
    WidthRatioRoundTripBound(width, tableWidth, r, ColumnWidthFromRatio(r, tableWidth));
  }
}
