# Electoral grid cartogram: a Dafny model of its presentation logic

The page draws one square per state on a fixed 8 x 12 grid, fills each
square with a colour that shows which side (D, shaded blue; R, shaded red)
carried the state and by how much, and shows a tooltip with the winner and
loser. This project models the computations behind that picture, all in
`index.js`:

- **Grid** (`grid.dfy`): the layout table `stateMatrix` and the row-major
  search `getStateLoc`, a method with nested loops and an early return.
- **RangeMap** (`range_map.dfy`): the affine remap `convertRange`.
- **Records** (`records.dfy`): a state's row once its numbers are numbers,
  and the tooltip projection `getVoteData`.
- **Colors** (`colors.dfy`): `pickColor` in vote mode and in percentage mode
  (with its fall-back on votes) and `pickTextColor`. The global `voteBased`
  flag is a parameter. Colours are the values before any text formatting:
  `Black`, the neutral `Grey` (`#f7f7f7`), or an unrounded `Rgb` triple. A
  second description, `LeanOf`/`ColorOf` (who leads and by what fraction of
  the way from white to the anchor), is proved equal to `PickColor`.
- **Summary** (`summary.dfy`): `winnerLoserData`.
- **Legend** (`legend.dfy`): `createLegendData`, a method with a loop that
  appends bins, proved equal bin by bin to the specification `BinAt`.
- **Coercion** (`coercion.dfy`): `removeCommas` and the conversion `forEach`
  in `updateMap`, which overwrites each row's fields in place (a `Row` class
  and a loop over the rows). The two JavaScript number conversions (unary
  `+` and `parseFloat`) are function parameters returning `None` for NaN.

Numbers are exact `real`s; there is no floating point, rounding or NaN in
the colour, summary and legend models.

Two behaviours of the code worth knowing:

- The margin is not clamped: in percentage mode a margin above 60 shades
  past the anchor colour (`Colors.PercentModeBand`), and a large one gives
  channels below 0 (`Colors.PercentModeNegativeChannel`, 92 % to 5 %).
  Channels stay within [0, 255] in vote mode when the votes are
  non-negative (`Colors.VoteModeInBand`), and in the legend
  (`Legend.BinInBand`), but not for landslides in percentage mode.
- When the percentages add up to more than 100, the fill falls back on
  votes but the tooltip still ranks by percentage, so the two can name
  different leaders (`Summary.FillAndWinnerDisagreeOnAnomaly`). Whenever
  the fill has a leader and compares the same metric as the tooltip, they
  agree (`Summary.WinnerMatchesFill`). On a tie the cell is grey but the
  tooltip still names R as winner (`Summary.TieGreyButRWins`).

## Model

| member | source | states |
|---|---|---|
| Grid.GetStateLoc | index.js:19-30 | returns the sentinel (-1, -1) exactly when no cell holds the code; otherwise a cell inside the 8 x 12 table that holds it, with no earlier cell in row-major order holding it |
| Grid.TableShape | index.js:3-12 | the table has 8 rows of 12 cells |
| Grid.HomeOfCell | index.js:3-12 | every filled cell is the listed position (`Home`) of the code it holds |
| Grid.HomeHoldsCode | index.js:3-12 | every code with a listed position is held by the cell there |
| Grid.CodesUnique | index.js:3-12 | no code is held by two different cells |
| Grid.ListedIffHome | index.js:3-12 | a code appears in the table exactly when it has a listed position |
| Grid.LocationIsHome | index.js:19-30 | any result meeting GetStateLoc's postcondition is the code's listed position, so the search result is unique per code and the sentinel exactly for unlisted codes |
| Grid.KnownLocations | index.js:3-30 | "CA" is first found at row 4, column 1; "ZZ" is not in the table |
| RangeMap.ConvertRange | index.js:33-35 | maps origMin to newMin and origMax to newMax |
| RangeMap.ConvertRangeByFraction | index.js:33-35 | the result moves from newMin towards newMax by the fraction of the way value has come from origMin to origMax |
| RangeMap.ConvertRangeAffine | index.js:33-35 | maps a weighted average of two inputs to the same weighted average of their images |
| RangeMap.ConvertRangeMonotone | index.js:33-35 | over an increasing source interval, order-preserving towards an increasing target and order-reversing towards a decreasing one |
| RangeMap.ConvertRangeBetween | index.js:33-35 | a value inside the source interval lands between the two targets |
| Records.GetVoteData | index.js:91-102 | the projection keeps each side's nominee, votes and percentage on that side, and the state name and electoral votes |
| Colors.PickColor | index.js:37-72 | never black; grey exactly on equal votes when the vote path is taken (vote mode, or percentages summing past 100), else exactly on equal percentages |
| Colors.PickTextColor | index.js:74-81 | black exactly on equal percentages; otherwise the fill colour under the configured mode |
| Colors.Anchor | index.js:41-65 | the D anchor (33, 102, 172) and R anchor (178, 24, 43) are proper colours strictly below white |
| Colors.InterpolateIsShade | index.js:43-65 | the three-channel remap towards an anchor is the shade at the remap's fraction |
| Colors.PickColorMatchesLean | index.js:37-72 | the fill equals the reference colour: grey on a tie, else the leader's shade at its vote share (vote path) or at (margin + 60) / 120 (percentage path) |
| Colors.PercentFallsBackOnVotes | index.js:55-56 | percentages summing past 100 give exactly the vote-mode colour |
| Colors.LeanSwap | index.js:37-72 | exchanging the sides exchanges the leader and keeps the fraction |
| Colors.PickColorSymmetric | index.js:37-72 | exchanging the sides keeps grey grey and otherwise switches anchor at the same fraction |
| Colors.VoteShareAboveHalf | index.js:41-47 | with non-negative votes and a strict leader, the share lies in (50, 100] percent |
| Colors.ShadeInBand | index.js:43-65 | a fraction in [0, 1] shades between the anchor and white |
| Colors.ShadePastAnchor | index.js:58-65 | a fraction above 1 takes every channel strictly beyond the anchor |
| Colors.ShadeFamily | index.js:43-65 | blue shades order channels r < g < b, red shades g < b < r, so a shade shows its side |
| Colors.VoteModeInBand | index.js:40-53 | in vote mode with non-negative votes a strict winner's cell lies in its own band, more than halfway to its anchor |
| Colors.PercentModeAnchorAtSixty | index.js:58-65 | a 60-point margin gives exactly the leader's anchor |
| Colors.PercentModeBand | index.js:54-69 | margins in (0, 60] stay within the leader's band; margins above 60 overshoot the anchor on every channel |
| Colors.PercentModeNegativeChannel | index.js:58-61 | 92 % to 5 % in percentage mode gives a negative red channel |
| Colors.TextColorNeverGrey | index.js:74-81 | in percentage mode with percentages summing to at most 100 the text colour is never grey, and is a shade when the percentages differ |
| Summary.WinnerLoserData | index.js:104-166 | winner and loser are the D line and the R line in some order, with different colours; the winner's compared metric is at least the loser's; D wins exactly when its metric is strictly greater |
| Summary.TieGoesToR | index.js:104-166 | on equal metrics the R side is reported as winner |
| Summary.WinnerMatchesFill | index.js:104-166 | when the fill has a leader and fill and tooltip compare the same metric, the tooltip's winner is that leader |
| Summary.TieGreyButRWins | index.js:104-166 | when fill and tooltip compare the same metric and it is tied, the cell is grey while the tooltip names R as winner |
| Summary.FillAndWinnerDisagreeOnAnomaly | index.js:55-56 | with percentages summing past 100, the fill's leader and the tooltip's winner can differ |
| Legend.BinCount | index.js:316-320 | pass i of the bin loop runs exactly when i < BinCount |
| Legend.CreateLegendData | index.js:314-333 | returns BinCount bins, bin i equal to BinAt(origStart, i) |
| Legend.KeySpan | index.js:314-333 | for a negative multiple of 5 there are |start| / 5 bins, the first starting at start and the last ending at -start |
| Legend.BinsContiguous | index.js:320-325 | bin i has id i and width 10 and ends where bin i + 1 begins |
| Legend.BinColorIsShade | index.js:319-329 | a bin is shaded blue for a negative midpoint, red otherwise, at the fraction of its midpoint's magnitude across the whole key |
| Legend.BinInBand | index.js:319-329 | for a negative multiple of 5, every bin lies at least halfway and strictly short of its anchor, so all channels are in [0, 255] |
| Legend.KeyMirror | index.js:319-329 | for a negative multiple of 10, bins at mirrored positions use opposite anchors at the same fraction |
| Legend.KeyFromMinusSixty | index.js:345 | the drawn key has 12 bins, from -60..-50 to 50..60 |
| Coercion.ToNumber | index.js:229-233 | unary plus yields a number and leaves a number as it is |
| Coercion.StripCommas | index.js:199-201 | the result holds no comma, and a string without commas is unchanged |
| Coercion.StripCommasKeepsOthers | index.js:199-201 | every character other than a comma keeps its count |
| Coercion.StripCommasAppend | index.js:199-201 | stripping distributes over concatenation, so the rest keeps its order |
| Coercion.StripCommasIdempotent | index.js:199-201 | stripping twice is stripping once |
| Coercion.RemoveCommas | index.js:199-201 | a string without commas parses as parseFloat of itself |
| Coercion.CoerceScope | index.js:227-238 | all five numeric fields become numbers; electoral votes and percentages are the unary-plus results whatever the fallback does |
| Coercion.CoerceVotes | index.js:234-237 | the vote fields keep their unary-plus values exactly when neither is NaN; otherwise both are re-parsed from the original text without commas |
| Coercion.ThousandsSeparators | index.js:227-238 | "5,000,000" and "4,000,000", rejected by unary plus, end up as 5000000 and 4000000 |
| Coercion.Row.CoerceFields | index.js:228-237 | one row's numeric fields are overwritten with their converted values; its text fields are unchanged |
| Coercion.CoerceRows | index.js:227-238 | every row is converted exactly once, in place |

## Left out

- Drawing and events: the rest of `updateMap`, `createLegend`, `drawTooltip`, the tooltip transitions and the mouse handlers are SVG and DOM work.
- Loading: `loadYear`, `loadMap`, `window.onload`, the latest-year choice and the button classes are file loading and UI.
- Text output: `rgb()` rounding and string building, the `toFixed(1)` legend labels and the tooltip HTML; colours are unrounded triples and bins carry their numeric bounds.
- JavaScript number parsing: unary `+` and `parseFloat` are parameters of the conversion, so what any particular string parses to is not modelled; IEEE-754 rounding is replaced by exact reals.
- NaN and infinities in the colour, summary and legend models: their inputs are exact reals.
- Grid.GetStateLoc: takes the code rather than the row, returns integer indices (the source's `for…in` gives string indices) and does not model the loop variables leaking as globals.
- Colors.PickColor: requires a non-zero two-way vote total when the vote share is computed; the source would produce an infinite share for opposite-signed votes summing to zero.
- Legend.CreateLegendData: the key's start is an integer (the page passes -60).
- Coercion.CoerceRows: requires distinct row objects whose vote fields are still text, as loaded; converting a row twice or calling `replace` on a number is not modelled.
