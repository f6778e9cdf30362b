/** One row of the per-state results table once its numeric fields hold
    numbers, and the tooltip's projection of it. */
module Records {

  /** A state's row: its code and name, its electoral votes, and for each
      side (D, R) the nominee, the popular vote and the percentage. */
  datatype StateResult = StateResult(
    abbreviation: string,
    state: string,
    totalEV: real,
    dNominee: string,
    rNominee: string,
    dVotes: real,
    rVotes: real,
    dPercentage: real,
    rPercentage: real)

  /** The same row with the two sides exchanged. */
  function Swap(d: StateResult): StateResult {
    d.(dNominee := d.rNominee, rNominee := d.dNominee,
       dVotes := d.rVotes, rVotes := d.dVotes,
       dPercentage := d.rPercentage, rPercentage := d.dPercentage)
  }

  /** The fields the tooltip shows, under the tooltip's own names. */
  datatype VoteData = VoteData(
    state: string,
    eVotes: real,
    dVotes: real,
    rVotes: real,
    dCand: string,
    rCand: string,
    dPercent: real,
    rPercent: real)

  /** Projects a row onto the tooltip fields, keeping each side's nominee,
      votes and percentage together on that side. */
  function GetVoteData(d: StateResult): (v: VoteData)
    ensures v.state == d.state && v.eVotes == d.totalEV
    ensures v.dCand == d.dNominee && v.dVotes == d.dVotes && v.dPercent == d.dPercentage
    ensures v.rCand == d.rNominee && v.rVotes == d.rVotes && v.rPercent == d.rPercentage
  {
    VoteData(d.state, d.totalEV, d.dVotes, d.rVotes, d.dNominee, d.rNominee, d.dPercentage, d.rPercentage)
  }
}
