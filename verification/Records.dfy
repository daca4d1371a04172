/** The rows of the voting tables, with the columns the voting rules read or write. */
module Records {
  import opened Ballots

  type Time = int

  datatype Status = Draft | Open | Closed | Cancelled

  /** `AllocationMethod`: the electoral system of an election. */
  datatype System = Fptp | Ams | Stv | Av

  /** What a ballot token, a ledger entry or a tally belongs to: exactly one of the two ids is set. */
  datatype Contest = Election(id: Id) | Referendum(id: Id)

  datatype ContestRow = ContestRow(status: Status, opens: Option<Time>, closes: Option<Time>, system: System)

  datatype BallotToken = BallotToken(contest: Contest, constituency: Option<Id>, used: bool)

  datatype Vote = Vote(election: Id, constituency: Option<Id>, candidate: Option<Id>, party: Option<Id>,
                       rank: Option<nat>, hash: string, castAt: Time)

  datatype Choice = Yes | No

  datatype ReferendumVote = ReferendumVote(referendum: Id, choice: Choice, hash: string, castAt: Time)

  datatype LedgerEntry = LedgerEntry(voter: Id, contest: Contest)

  datatype TallyKey = TallyKey(contest: Contest, constituency: Option<Id>, candidate: Option<Id>,
                               party: Option<Id>, choice: Option<Choice>)

  datatype Tally = Tally(key: TallyKey, count: nat)
}
