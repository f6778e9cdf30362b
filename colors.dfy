/** The fill and text colours of a state's cell. A cell is shaded from white
    towards the leading side's anchor colour; the amount is the leader's vote
    share (vote mode) or its percentage margin (percentage mode). A tie is a
    neutral grey. */
module Colors {
  import opened RangeMap
  import opened Records

  /** The two sides: D (shaded blue) and R (shaded red). */
  datatype Side = D | R

  /** A colour as the page uses it: the text colour "black", the neutral
      grey "#f7f7f7", or an rgb() triple before rounding. */
  datatype Color = Black | Grey | Rgb(r: real, g: real, b: real)

  const White: real := 255.0

  /** The colour a side's shading runs towards. */
  function Anchor(side: Side): (c: Color)
    ensures c.Rgb? && 0.0 < c.r < White && 0.0 < c.g < White && 0.0 < c.b < White
  {
    match side
    case D => Rgb(33.0, 102.0, 172.0)
    case R => Rgb(178.0, 24.0, 43.0)
  }

  /** Remaps `x` from [lo, hi] onto white-to-anchor, channel by channel. */
  function Interpolate(x: real, lo: real, hi: real, anchor: Color): Color
    requires lo != hi && anchor.Rgb?
  {
    Rgb(ConvertRange(x, lo, hi, White, anchor.r),
        ConvertRange(x, lo, hi, White, anchor.g),
        ConvertRange(x, lo, hi, White, anchor.b))
  }

  /** The colour a fraction `t` of the way from white to the side's anchor. */
  function Shade(side: Side, t: real): Color {
    var a := Anchor(side);
    Rgb(White + (a.r - White) * t, White + (a.g - White) * t, White + (a.b - White) * t)
  }

  /** Each channel of `c` lies between the side's anchor channel and white. */
  predicate InBand(c: Color, side: Side) {
    var a := Anchor(side);
    c.Rgb? && a.r <= c.r <= White && a.g <= c.g <= White && a.b <= c.b <= White
  }

  /** The vote share divides by the two-way total only when the votes
      differ; that total must then be non-zero. */
  predicate ShareDefined(d: StateResult) {
    d.dVotes != d.rVotes ==> d.dVotes + d.rVotes != 0.0
  }

  /** Percentage mode falls back on the votes when the percentages add up
      to more than 100. */
  predicate UsesVotes(d: StateResult, isVotes: bool) {
    isVotes || d.dPercentage + d.rPercentage > 100.0
  }

  /** pickColor: the fill colour of a state's cell. */
  function PickColor(d: StateResult, isVotes: bool): (c: Color)
    requires UsesVotes(d, isVotes) ==> ShareDefined(d)
    ensures c != Black
    ensures c == Grey <==> if UsesVotes(d, isVotes) then d.dVotes == d.rVotes else d.dPercentage == d.rPercentage
    decreases if isVotes then 0 else 1
  {
    if isVotes then
      if d.dVotes > d.rVotes then
        var percent := d.dVotes / (d.dVotes + d.rVotes) * 100.0;
        Interpolate(percent, 0.0, 100.0, Anchor(D))
      else if d.dVotes < d.rVotes then
        var percent := d.rVotes / (d.dVotes + d.rVotes) * 100.0;
        Interpolate(percent, 0.0, 100.0, Anchor(R))
      else
        Grey
    else if d.dPercentage + d.rPercentage > 100.0 then
      PickColor(d, true)
    else if d.dPercentage > d.rPercentage then
      Interpolate(d.dPercentage - d.rPercentage, -60.0, 60.0, Anchor(D))
    else if d.dPercentage < d.rPercentage then
      Interpolate(d.rPercentage - d.dPercentage, -60.0, 60.0, Anchor(R))
    else
      Grey
  }

  /** pickTextColor: black on exactly equal percentages, otherwise the fill
      colour under the configured mode. */
  function PickTextColor(d: StateResult, voteBased: bool): (c: Color)
    requires d.dPercentage != d.rPercentage && UsesVotes(d, voteBased) ==> ShareDefined(d)
    ensures c == Black <==> d.dPercentage == d.rPercentage
    ensures c != Black ==> c == PickColor(d, voteBased)
  {
    if d.dPercentage == d.rPercentage then Black else PickColor(d, voteBased)
  }

  // ---------------------------------------------------------------------
  // A reference description of the fill: who leads, and by how much.

  /** Tie, or the leading side with how far its shade goes towards the anchor. */
  datatype Lean = Tie | Leads(side: Side, t: real)

  function Opposite(side: Side): Side {
    match side
    case D => R
    case R => D
  }

  function Flip(l: Lean): Lean {
    match l
    case Tie => Tie
    case Leads(s, t) => Leads(Opposite(s), t)
  }

  function Abs(x: real): real {
    if x < 0.0 then -x else x
  }

  /** In vote mode the leader is the side with more votes and `t` is its
      share of the two-way total; in percentage mode the leader has the
      larger percentage and `t` is (margin + 60) / 120. */
  function LeanOf(d: StateResult, isVotes: bool): Lean
    requires UsesVotes(d, isVotes) ==> ShareDefined(d)
  {
    if UsesVotes(d, isVotes) then
      if d.dVotes == d.rVotes then Tie
      else
        var side := if d.dVotes > d.rVotes then D else R;
        var lead := if side == D then d.dVotes else d.rVotes;
        Leads(side, lead / (d.dVotes + d.rVotes))
    else if d.dPercentage == d.rPercentage then Tie
    else
      var side := if d.dPercentage > d.rPercentage then D else R;
      Leads(side, (Abs(d.dPercentage - d.rPercentage) + 60.0) / 120.0)
  }

  function ColorOf(l: Lean): Color {
    match l
    case Tie => Grey
    case Leads(s, t) => Shade(s, t)
  }

  /** Interpolating across [lo, hi] is shading by the fraction covered. */
  lemma InterpolateIsShade(x: real, lo: real, hi: real, side: Side)
    requires lo != hi
    ensures Interpolate(x, lo, hi, Anchor(side)) == Shade(side, Fraction(x, lo, hi))
  {
    var a := Anchor(side);
    ConvertRangeByFraction(x, lo, hi, White, a.r);
    ConvertRangeByFraction(x, lo, hi, White, a.g);
    ConvertRangeByFraction(x, lo, hi, White, a.b);
  }

  /** The fill is exactly the reference colour: grey on a tie, otherwise the
      leader's shade at the reference fraction. */
  lemma PickColorMatchesLean(d: StateResult, isVotes: bool)
    requires UsesVotes(d, isVotes) ==> ShareDefined(d)
    ensures PickColor(d, isVotes) == ColorOf(LeanOf(d, isVotes))
  {
    if UsesVotes(d, isVotes) {
      var total := d.dVotes + d.rVotes;
      if d.dVotes != d.rVotes {
        var side := if d.dVotes > d.rVotes then D else R;
        var lead := if side == D then d.dVotes else d.rVotes;
        InterpolateIsShade(lead / total * 100.0, 0.0, 100.0, side);
        assert Fraction(lead / total * 100.0, 0.0, 100.0) == lead / total;
        if !isVotes {
          assert PickColor(d, isVotes) == PickColor(d, true);
        }
      }
    } else if d.dPercentage != d.rPercentage {
      var side := if d.dPercentage > d.rPercentage then D else R;
      var m := Abs(d.dPercentage - d.rPercentage);
      InterpolateIsShade(m, -60.0, 60.0, side);
      assert Fraction(m, -60.0, 60.0) == (m + 60.0) / 120.0;
    }
  }

  /** When the percentages add up to more than 100, percentage mode gives
      exactly what vote mode gives. */
  lemma PercentFallsBackOnVotes(d: StateResult)
    requires d.dPercentage + d.rPercentage > 100.0 && ShareDefined(d)
    ensures PickColor(d, false) == PickColor(d, true)
  {
  }

  /** Exchanging the sides exchanges the leader and keeps the fraction. */
  lemma LeanSwap(d: StateResult, isVotes: bool)
    requires UsesVotes(d, isVotes) ==> ShareDefined(d)
    ensures UsesVotes(Swap(d), isVotes) == UsesVotes(d, isVotes) && ShareDefined(Swap(d)) == ShareDefined(d)
    ensures LeanOf(Swap(d), isVotes) == Flip(LeanOf(d, isVotes))
  {
    var e := Swap(d);
    assert e.dVotes + e.rVotes == d.dVotes + d.rVotes;
    assert e.dPercentage + e.rPercentage == d.dPercentage + d.rPercentage;
    assert Abs(e.dPercentage - e.rPercentage) == Abs(d.dPercentage - d.rPercentage);
  }

  /** The fill is symmetric in the sides: exchanging them keeps grey grey,
      and otherwise keeps the shading fraction while switching the anchor. */
  lemma PickColorSymmetric(d: StateResult, isVotes: bool)
    requires UsesVotes(d, isVotes) ==> ShareDefined(d)
    ensures UsesVotes(Swap(d), isVotes) ==> ShareDefined(Swap(d))
    ensures PickColor(Swap(d), isVotes) == ColorOf(Flip(LeanOf(d, isVotes)))
  {
    LeanSwap(d, isVotes);
    PickColorMatchesLean(Swap(d), isVotes);
  }

  /** With non-negative votes and a strict leader, the leader's share lies in
      (1/2, 1]: more than 50 percent, at most 100. */
  lemma VoteShareAboveHalf(d: StateResult)
    requires 0.0 <= d.dVotes && 0.0 <= d.rVotes && d.dVotes != d.rVotes
    ensures LeanOf(d, true).Leads? && 0.5 < LeanOf(d, true).t <= 1.0
  {
    var total := d.dVotes + d.rVotes;
    var lead := if d.dVotes > d.rVotes then d.dVotes else d.rVotes;
    var t := lead / total;
    assert t * total == lead;
    assert 2.0 * lead > total;
    assert 0.0 < total;
    assert 0.5 < t by {
      if t <= 0.5 {
        ProductSign(total, 0.5 - t);
      }
    }
    assert t <= 1.0 by {
      if t > 1.0 {
        ProductSign(total, t - 1.0);
        assert (t - 1.0) * total == t * total - total;
      }
    }
  }

  /** Shading by a fraction in [0, 1] stays between the anchor and white. */
  lemma ShadeInBand(side: Side, t: real)
    requires 0.0 <= t <= 1.0
    ensures InBand(Shade(side, t), side)
  {
    var a := Anchor(side);
    ProductSign(White - a.r, 1.0 - t);
    ProductSign(White - a.g, 1.0 - t);
    ProductSign(White - a.b, 1.0 - t);
    ProductSign(White - a.r, t);
    ProductSign(White - a.g, t);
    ProductSign(White - a.b, t);
  }

  /** Shading past the anchor (a fraction above 1) takes every channel
      strictly beyond the anchor's, away from white. */
  lemma ShadePastAnchor(side: Side, t: real)
    requires 1.0 < t
    ensures var a := Anchor(side); var c := Shade(side, t);
      c.r < a.r && c.g < a.g && c.b < a.b
  {
    var a := Anchor(side);
    ProductSign(a.r - White, t - 1.0);
    ProductSign(a.g - White, t - 1.0);
    ProductSign(a.b - White, t - 1.0);
  }

  /** Blue shades order their channels r < g < b, red shades g < b < r, so
      any shade past white tells which side leads. */
  predicate Bluish(c: Color) {
    c.Rgb? && c.r < c.g < c.b
  }

  predicate Reddish(c: Color) {
    c.Rgb? && c.g < c.b < c.r
  }

  lemma ShadeFamily(side: Side, t: real)
    requires 0.0 < t
    ensures side == D ==> Bluish(Shade(side, t)) && !Reddish(Shade(side, t))
    ensures side == R ==> Reddish(Shade(side, t)) && !Bluish(Shade(side, t))
  {
  }

  /** Vote mode with non-negative votes: a strict winner's cell is shaded
      within its own band, more than halfway from white to its anchor. */
  lemma VoteModeInBand(d: StateResult)
    requires 0.0 <= d.dVotes && 0.0 <= d.rVotes && d.dVotes != d.rVotes
    ensures var side := if d.dVotes > d.rVotes then D else R;
      exists t :: 0.5 < t <= 1.0 && PickColor(d, true) == Shade(side, t)
    ensures InBand(PickColor(d, true), if d.dVotes > d.rVotes then D else R)
  {
    VoteShareAboveHalf(d);
    PickColorMatchesLean(d, true);
    var l := LeanOf(d, true);
    ShadeInBand(l.side, l.t);
  }

  /** Percentage mode reaches the leader's anchor exactly at a 60-point
      margin. */
  lemma PercentModeAnchorAtSixty(d: StateResult)
    requires d.dPercentage + d.rPercentage <= 100.0 && Abs(d.dPercentage - d.rPercentage) == 60.0
    ensures PickColor(d, false) == Anchor(if d.dPercentage > d.rPercentage then D else R)
  {
    PickColorMatchesLean(d, false);
  }

  /** Percentage mode with a margin in (0, 60] shades within the leader's
      band; a margin above 60 is not clamped and overshoots the anchor. */
  lemma PercentModeBand(d: StateResult)
    requires d.dPercentage + d.rPercentage <= 100.0 && d.dPercentage != d.rPercentage
    ensures var side := if d.dPercentage > d.rPercentage then D else R;
      Abs(d.dPercentage - d.rPercentage) <= 60.0 ==> InBand(PickColor(d, false), side)
    ensures var a := Anchor(if d.dPercentage > d.rPercentage then D else R); var c := PickColor(d, false);
      Abs(d.dPercentage - d.rPercentage) > 60.0 ==> c.r < a.r && c.g < a.g && c.b < a.b
  {
    PickColorMatchesLean(d, false);
    var l := LeanOf(d, false);
    if l.t <= 1.0 {
      ShadeInBand(l.side, l.t);
    } else {
      ShadePastAnchor(l.side, l.t);
    }
  }

  /** A landslide in percentage mode gives a channel below 0: with 92 to 5
      percent the red channel of the blue shade is negative. */
  lemma PercentModeNegativeChannel()
    ensures PickColor(StateResult("DC", "District of Columbia", 3.0, "D", "R", 0.0, 0.0, 92.0, 5.0), false).r < 0.0
  {
    PickColorMatchesLean(StateResult("DC", "District of Columbia", 3.0, "D", "R", 0.0, 0.0, 92.0, 5.0), false);
  }

  /** In percentage mode with consistent percentages the text colour is
      never the fill's neutral grey: a tie is black text, a lead is the
      leader's shade. */
  lemma TextColorNeverGrey(d: StateResult)
    requires d.dPercentage + d.rPercentage <= 100.0
    ensures PickTextColor(d, false) != Grey
    ensures d.dPercentage != d.rPercentage ==> PickTextColor(d, false).Rgb?
  {
  }
}
