/** The tooltip's winner and loser lines. The metric compared is the same
    flag that chooses the fill's mode: votes, or percentages. */
module Summary {
  import opened Records
  import opened Colors

  /** The fixed text colour of a side's tooltip line. */
  datatype Tag = Blue | Red

  /** One tooltip line: nominee, votes, percentage and text colour. */
  datatype Entry = Entry(name: string, votes: real, percent: real, color: Tag)

  datatype WinLose = WinLose(winData: Entry, loseData: Entry)

  /** The D side's line and the R side's line of a state. */
  function DEntry(v: VoteData): Entry { Entry(v.dCand, v.dVotes, v.dPercent, Blue) }
  function REntry(v: VoteData): Entry { Entry(v.rCand, v.rVotes, v.rPercent, Red) }

  /** The quantity the flag compares. */
  function Metric(e: Entry, voteBased: bool): real {
    if voteBased then e.votes else e.percent
  }

  /** winnerLoserData: D wins only when its metric is strictly greater;
      otherwise, ties included, R is the winner. */
  function WinnerLoserData(v: VoteData, voteBased: bool): (w: WinLose)
    ensures w.winData.color != w.loseData.color
    ensures {w.winData, w.loseData} == {DEntry(v), REntry(v)}
    ensures Metric(w.winData, voteBased) >= Metric(w.loseData, voteBased)
    ensures w.winData.color == Blue <==> Metric(DEntry(v), voteBased) > Metric(REntry(v), voteBased)
  {
    if voteBased then
      if v.dVotes > v.rVotes then
        WinLose(Entry(v.dCand, v.dVotes, v.dPercent, Blue), Entry(v.rCand, v.rVotes, v.rPercent, Red))
      else
        WinLose(Entry(v.rCand, v.rVotes, v.rPercent, Red), Entry(v.dCand, v.dVotes, v.dPercent, Blue))
    else
      if v.dPercent > v.rPercent then
        WinLose(Entry(v.dCand, v.dVotes, v.dPercent, Blue), Entry(v.rCand, v.rVotes, v.rPercent, Red))
      else
        WinLose(Entry(v.rCand, v.rVotes, v.rPercent, Red), Entry(v.dCand, v.dVotes, v.dPercent, Blue))
  }

  /** On a tie in the compared metric the R side is reported as winner. */
  lemma TieGoesToR(v: VoteData, voteBased: bool)
    requires Metric(DEntry(v), voteBased) == Metric(REntry(v), voteBased)
    ensures WinnerLoserData(v, voteBased) == WinLose(REntry(v), DEntry(v))
  {
  }

  function TagOf(side: Side): Tag {
    match side
    case D => Blue
    case R => Red
  }

  /** Whenever the fill has a leader and is computed on the same metric as
      the tooltip (always in vote mode; in percentage mode when the
      percentages do not exceed 100 together), the tooltip's winner is that
      leader. */
  lemma WinnerMatchesFill(d: StateResult, voteBased: bool)
    requires voteBased || d.dPercentage + d.rPercentage <= 100.0
    requires voteBased ==> ShareDefined(d)
    requires LeanOf(d, voteBased).Leads?
    ensures WinnerLoserData(GetVoteData(d), voteBased).winData.color == TagOf(LeanOf(d, voteBased).side)
  {
  }

  /** On a tie in the metric both the fill and the tooltip compare, the cell
      is grey, yet the tooltip still reports R as the winner. */
  lemma TieGreyButRWins(d: StateResult, voteBased: bool)
    requires voteBased || d.dPercentage + d.rPercentage <= 100.0
    requires voteBased ==> ShareDefined(d)
    requires LeanOf(d, voteBased) == Tie
    ensures PickColor(d, voteBased) == Grey
    ensures WinnerLoserData(GetVoteData(d), voteBased).winData.color == Red
  {
  }

  /** When the percentages exceed 100 together, the fill falls back on the
      votes but the tooltip still ranks by percentage, so the two can name
      different leaders. */
  lemma FillAndWinnerDisagreeOnAnomaly()
    ensures var d := StateResult("XX", "Example", 3.0, "A", "B", 600.0, 400.0, 40.0, 70.0);
      LeanOf(d, false) == Leads(D, 0.6) && WinnerLoserData(GetVoteData(d), false).winData.color == Red
  {
  }
}
