/** The colour key under the map: fixed-width bins of percentage margin,
    each coloured at its midpoint. */
module Legend {
  import opened RangeMap
  import opened Colors

  /** One bin of the key: its position, the bounds its label shows, and its
      colour. */
  datatype LegendBin = LegendBin(id: nat, start: real, end: real, fill: Color)

  /** The key spans [origStart, FinalEnd(origStart)] in bins of width 10;
      NumSections is |origStart| / 5, the loop's bound. */
  function NumSections(origStart: int): real {
    (if origStart < 0 then -origStart else origStart) as real / 5.0
  }

  function FinalEnd(origStart: int): real {
    origStart as real + NumSections(origStart) * 10.0
  }

  /** The bin loop runs pass i exactly when i is below NumSections. */
  predicate Runs(origStart: int, i: nat) {
    (i as real) < NumSections(origStart)
  }

  /** The number of passes of the bin loop: |origStart| / 5, rounded up. */
  function BinCount(origStart: int): (n: nat)
    ensures forall i: nat :: i < n <==> Runs(origStart, i)
  {
    var a := if origStart < 0 then -origStart else origStart;
    assert forall i: nat :: i < (a + 4) / 5 <==> 5 * i < a;
    (a + 4) / 5
  }

  /** The midpoint of bin i. */
  function Mid(origStart: int, i: nat): real {
    (origStart + 10 * i) as real + 5.0
  }

  /** Bin i: bounds origStart + 10i and origStart + 10i + 10; a negative
      midpoint is shaded towards the D anchor by its magnitude, any other
      towards the R anchor, both across the whole key's span. */
  function BinAt(origStart: int, i: nat): LegendBin
    requires i < BinCount(origStart)
  {
    var startValue := (origStart + 10 * i) as real;
    var endValue := (origStart + 10 + 10 * i) as real;
    var mid := Mid(origStart, i);
    LegendBin(i, startValue, endValue,
      if mid < 0.0 then Interpolate(-mid, origStart as real, FinalEnd(origStart), Anchor(D))
      else Interpolate(mid, origStart as real, FinalEnd(origStart), Anchor(R)))
  }

  /** createLegendData: pushes one bin per pass while advancing the bin
      bounds. */
  method CreateLegendData(origStart: int) returns (legendData: seq<LegendBin>)
    ensures |legendData| == BinCount(origStart)
    ensures forall i :: 0 <= i < |legendData| ==> legendData[i] == BinAt(origStart, i)
  {
    legendData := [];
    var numSections := NumSections(origStart);
    var startValue := origStart as real;
    var origEnd := origStart as real + 10.0;
    var finalEnd := origStart as real + numSections * 10.0;
    var i: nat := 0;
    while (i as real) < numSections
      invariant i <= BinCount(origStart)
      invariant |legendData| == i
      invariant forall k :: 0 <= k < i ==> legendData[k] == BinAt(origStart, k)
      decreases BinCount(origStart) - i
    {
      startValue := origStart as real + 10.0 * i as real;
      var endValue := origEnd + 10.0 * i as real;
      var mid := (startValue + endValue) / 2.0;
      var fill := if mid < 0.0 then Interpolate(-mid, origStart as real, finalEnd, Anchor(D))
                  else Interpolate(mid, origStart as real, finalEnd, Anchor(R));
      legendData := legendData + [LegendBin(i, startValue, endValue, fill)];
      i := i + 1;
    }
  }

  /** With a negative multiple of 5 as its start the key has |start| / 5 bins
      and spans [start, -start] exactly: the first bin begins at the start
      and the last ends at its negation. */
  lemma KeySpan(origStart: int)
    requires origStart < 0 && origStart % 5 == 0
    ensures BinCount(origStart) == -origStart / 5
    ensures FinalEnd(origStart) == -origStart as real
    ensures BinAt(origStart, 0).start == origStart as real
    ensures BinAt(origStart, BinCount(origStart) - 1).end == -origStart as real
  {
    var k := -origStart / 5;
    assert -origStart == 5 * k;
    assert NumSections(origStart) == k as real;
  }

  /** Bin i carries id i and width 10, and ends where bin i + 1 begins. */
  lemma BinsContiguous(origStart: int, i: nat)
    requires i + 1 < BinCount(origStart)
    ensures BinAt(origStart, i).id == i && BinAt(origStart, i + 1).id == i + 1
    ensures BinAt(origStart, i).end == BinAt(origStart, i).start + 10.0
    ensures BinAt(origStart, i).end == BinAt(origStart, i + 1).start
  {
  }

  /** The side and fraction a bin is shaded by: the sign of its midpoint, and
      where the midpoint's magnitude sits in the key's span. */
  function BinLean(origStart: int, i: nat): Lean
    requires i < BinCount(origStart)
  {
    var m := Mid(origStart, i);
    Leads(if m < 0.0 then D else R, Fraction(Abs(m), origStart as real, FinalEnd(origStart)))
  }

  lemma BinColorIsShade(origStart: int, i: nat)
    requires i < BinCount(origStart)
    ensures BinAt(origStart, i).fill == ColorOf(BinLean(origStart, i))
  {
    var m := Mid(origStart, i);
    InterpolateIsShade(Abs(m), origStart as real, FinalEnd(origStart), if m < 0.0 then D else R);
  }

  /** In a key starting at a negative multiple of 5, every bin is shaded at
      least halfway and strictly less than all the way from white to its
      anchor: blue for a negative midpoint, red otherwise. So every channel
      lies within [0, 255]. */
  lemma BinInBand(origStart: int, i: nat)
    requires origStart < 0 && origStart % 5 == 0 && i < BinCount(origStart)
    ensures 0.5 <= BinLean(origStart, i).t < 1.0
    ensures InBand(BinAt(origStart, i).fill, if Mid(origStart, i) < 0.0 then D else R)
  {
    KeySpan(origStart);
    var m := Mid(origStart, i);
    assert origStart + 5 <= origStart + 10 * i + 5 <= -origStart - 5 by {
      assert -origStart == 5 * BinCount(origStart);
    }
    assert m == (origStart + 10 * i + 5) as real;
    InnerFraction(Abs(m), origStart as real);
    BinColorIsShade(origStart, i);
    ShadeInBand(BinLean(origStart, i).side, BinLean(origStart, i).t);
  }

  /** A magnitude short of the end of a span [s, -s] sits at or past its
      middle and strictly before its end. */
  lemma InnerFraction(a: real, s: real)
    requires s < 0.0 && 0.0 <= a < -s
    ensures 0.5 <= Fraction(a, s, -s) < 1.0
  {
    var t := Fraction(a, s, -s);
    assert t * (-2.0 * s) == a - s;
    assert 0.5 <= t by {
      if t < 0.5 {
        assert (0.5 - t) * (-2.0 * s) == -s - t * (-2.0 * s);
        ProductSign(-2.0 * s, 0.5 - t);
      }
    }
    assert t < 1.0 by {
      if t >= 1.0 { ProductSign(-2.0 * s, t - 1.0); }
    }
  }

  /** A key starting at a negative multiple of 10 is symmetric: bin i and
      the bin as far from the other end use opposite anchors at the same
      fraction. */
  lemma KeyMirror(origStart: int, i: nat)
    requires origStart < 0 && origStart % 10 == 0 && i < BinCount(origStart)
    ensures BinCount(origStart) - 1 - i >= 0
    ensures BinLean(origStart, BinCount(origStart) - 1 - i) == Flip(BinLean(origStart, i))
  {
    KeySpan(origStart);
    var n := BinCount(origStart);
    assert Mid(origStart, n - 1 - i) == -Mid(origStart, i);
    assert Mid(origStart, i) != 0.0;
  }

  /** The key the page draws starts at -60: twelve bins from "-60.0 to -50.0"
      to "50.0 to 60.0". */
  lemma KeyFromMinusSixty()
    ensures BinCount(-60) == 12
    ensures BinAt(-60, 0).start == -60.0 && BinAt(-60, 0).end == -50.0
    ensures BinAt(-60, 11).start == 50.0 && BinAt(-60, 11).end == 60.0
  {
  }
}
