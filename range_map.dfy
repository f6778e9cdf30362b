/** The linear remap used for every colour interpolation: a value in
    [origMin, origMax] is carried affinely onto [newMin, newMax], without
    clamping. */
module RangeMap {

  /** Where `value` sits in [origMin, origMax], as a fraction: 0 at origMin,
      1 at origMax. */
  function Fraction(value: real, origMin: real, origMax: real): real
    requires origMin != origMax
  {
    (value - origMin) / (origMax - origMin)
  }

  /** The remap itself. The source does not guard a degenerate interval; its
      callers never pass one, and here that is a precondition. */
  function ConvertRange(value: real, origMin: real, origMax: real, newMin: real, newMax: real): (r: real)
    requires origMin != origMax
    ensures value == origMin ==> r == newMin
    ensures value == origMax ==> r == newMax
  {
    var scaled := (newMax - newMin) * (value - origMin);
    assert value == origMin ==> scaled == 0.0;
    assert value == origMax ==> scaled == newMax * (origMax - origMin) - newMin * (origMax - origMin);
    newMin + scaled / (origMax - origMin)
  }

  /** The remap moves from newMin towards newMax by the fraction of the way
      `value` has come from origMin towards origMax. */
  lemma ConvertRangeByFraction(value: real, origMin: real, origMax: real, newMin: real, newMax: real)
    requires origMin != origMax
    ensures ConvertRange(value, origMin, origMax, newMin, newMax)
         == newMin + (newMax - newMin) * Fraction(value, origMin, origMax)
  {
  }

  /** The remap is affine in `value`: it maps a weighted average of two
      inputs to the same weighted average of their images. */
  lemma ConvertRangeAffine(x: real, y: real, t: real, origMin: real, origMax: real, newMin: real, newMax: real)
    requires origMin != origMax
    ensures ConvertRange((1.0 - t) * x + t * y, origMin, origMax, newMin, newMax)
         == (1.0 - t) * ConvertRange(x, origMin, origMax, newMin, newMax)
          + t * ConvertRange(y, origMin, origMax, newMin, newMax)
  {
    ConvertRangeByFraction(x, origMin, origMax, newMin, newMax);
    ConvertRangeByFraction(y, origMin, origMax, newMin, newMax);
    ConvertRangeByFraction((1.0 - t) * x + t * y, origMin, origMax, newMin, newMax);
    assert Fraction((1.0 - t) * x + t * y, origMin, origMax)
        == (1.0 - t) * Fraction(x, origMin, origMax) + t * Fraction(y, origMin, origMax) by {
      assert (1.0 - t) * x + t * y - origMin == (1.0 - t) * (x - origMin) + t * (y - origMin);
    }
  }

  /** Over an increasing source interval the remap preserves order towards
      an increasing target and reverses it towards a decreasing one. */
  lemma ConvertRangeMonotone(x1: real, x2: real, origMin: real, origMax: real, newMin: real, newMax: real)
    requires origMin < origMax && x1 <= x2
    ensures newMin <= newMax ==> ConvertRange(x1, origMin, origMax, newMin, newMax) <= ConvertRange(x2, origMin, origMax, newMin, newMax)
    ensures newMax <= newMin ==> ConvertRange(x2, origMin, origMax, newMin, newMax) <= ConvertRange(x1, origMin, origMax, newMin, newMax)
  {
    var f1, f2 := Fraction(x1, origMin, origMax), Fraction(x2, origMin, origMax);
    assert f2 - f1 == (x2 - x1) / (origMax - origMin);
    QuotientNonnegative(x2 - x1, origMax - origMin);
    ConvertRangeByFraction(x1, origMin, origMax, newMin, newMax);
    ConvertRangeByFraction(x2, origMin, origMax, newMin, newMax);
    var k := newMax - newMin;
    assert k * f2 - k * f1 == k * (f2 - f1);
    ProductSign(k, f2 - f1);
  }

  lemma QuotientNonnegative(a: real, d: real)
    requires 0.0 <= a && 0.0 < d
    ensures 0.0 <= a / d
  {
  }

  lemma ProductSign(k: real, f: real)
    requires 0.0 <= f
    ensures 0.0 <= k ==> 0.0 <= k * f
    ensures k <= 0.0 ==> k * f <= 0.0
  {
  }

  /** A value inside the source interval lands between the two targets. */
  lemma ConvertRangeBetween(value: real, origMin: real, origMax: real, newMin: real, newMax: real)
    requires origMin < origMax && origMin <= value <= origMax
    ensures newMin <= newMax ==> newMin <= ConvertRange(value, origMin, origMax, newMin, newMax) <= newMax
    ensures newMax <= newMin ==> newMax <= ConvertRange(value, origMin, origMax, newMin, newMax) <= newMin
  {
    ConvertRangeMonotone(origMin, value, origMin, origMax, newMin, newMax);
    ConvertRangeMonotone(value, origMax, origMin, origMax, newMin, newMax);
  }
}
