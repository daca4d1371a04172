# Electronic voting: counting, casting, scheduling and key rotation

A Dafny model of the backend of an electronic voting service, with proofs about whole counts, whole
runs of requests and whole key histories. Four parts, each with its own modules:

* **Counting** (`Ballots`, `AlternativeVote*`, `WeightedBallots`, `SingleTransferableVote*`,
  `FilledSeats`, `Surplus*`, `Permutations`, `AdditionalMemberSystem`, `ElectionResults`,
  `RankedResults`, `AmsEndToEnd`, over the helpers `Arithmetic` and `Dictionaries`): the Alternative
  Vote, the Single Transferable Vote with a Droop quota, D'Hondt top-up seats and first past the post. A count
  is a method over mutable dictionaries, as in the source, proved against a relation that says which
  rounds a count may go through. The relation leaves ties open, so every theorem about it holds
  however a dictionary happens to be ordered.
* **Casting** (`Records`, `VotingTables`, `VotingDatabase`, `VotingRuns`, `CastingRules`,
  `ListVotes`, `RankedRows`, `TallyIndex`, `MisorderedBallot`, `Turnout`, `LocalTotals`, `RankedElections`, `RankedTurnout`, `FptpEndToEnd`,
  `AuditReport`): issuing tokens, casting ballots, the incremental tally and the audit report.
  `VotingDatabase.Database` performs each request step by step on stored tables and is proved equal to a
  function on table values (`VotingTables`); `VotingRuns` takes any sequence of requests from the empty
  database.
* **Scheduling** (`VotingWindow`, `Rescheduling`, `ResultCache`, `ReferendumResults`): manual changes of
  status and schedule against clock-driven syncs, and the caches of results that depend on them.
* **Keys** (`KeyManagement`, `KeysManager`, `KeyRuns`, `FieldEncryption`, `EncryptionMapper`,
  `BlindIndex`): versions of data encryption keys, their rotation and plain-key cache, the formats of
  encrypted fields and streams over an abstract cipher, and searching by blind index.

One request is one atomic step at one time: the source wraps each in a transaction, so a request that
fails leaves no trace. `Facts` holds what the rest of the database says about a request (whether the
voter may vote, which candidates exist). Iteration orders that the source leaves open are parameters
(`rows` and `tallies` in any order).

## Where the code and its documentation part

Each of these is stated as a theorem about the code as written.

* **Surplus transfer never happens.** `elected.append(c)` runs before the loop that looks for ballots
  whose first active candidate is `c`, so no weight ever changes. The official guide says surplus votes
  transfer (OfficialGuide.md:138). `SurplusNotTransferred` proves the two promises of proportionality
  hold for all ballots if and only if there is one seat; the code fills five. With several seats a quota
  coalition is sure of a seat exactly when the candidates outside it are too few to fill the seats.
  `SurplusTransferred` is the version with that one line moved. It is marked as such and is not what
  the code does. Moving the line has its own cost (`SurplusCost`): ratios come from the counts of the start
  of a round, so a ballot that moves between two candidates elected in it is charged twice, and three
  quotas of complete ballots can win two of three seats where the code as written fills all three.
* **Seats can stay empty.** No rule fills the last seats. On all ballots that each omit at most k of the
  candidates, every seat that a candidate could fill is filled if and only if k is 0. With one name per
  ballot exactly the candidates with a quota are elected, and six voters with a candidate each leave all
  five seats empty.
* **The tally of a ranked ballot counts the preference listed first**, while any permutation of ranks is
  accepted. An accepted ballot keeps the tally equal to a recount if and only if the candidate
  listed first is the one ranked first; a whole run does if and only if, per candidate, as many ballots
  do the one as the other (known only once the ballots are in; the test on one ballot can be made
  before it is cast). `MisorderedBallot` is a run of one voter whose vote goes to the wrong
  candidate.
* **List votes are stored and never counted.** Casting writes a row for the list and no tally, and the
  result is made from tallies. So after any run an election under the Additional Member System gives no
  top-up seat, and since the empty ones count towards the majority no party ever has it
  (`AmsEndToEnd`). The official guide has voters pick a regional party (OfficialGuide.md:139).
* **Closed results are not immutable.** The cache assumes they are (result_service.py:33, 39). An
  election may be reopened, and one that is closed before its opening time opens by itself. The figures
  are final, officials leaving the election alone, if and only if its schedule lets no later sync open it.
* **A ranked ballot without a constituency is accepted and never counted.** The validator asks for one
  under first past the post only. The votes counted and these ballots together are the ballots accepted.
* **Referendum results are cached at any status.** A cached result is right if and only if no ballot has
  been accepted since; officials leaving the referendum alone, it stays right if and only if the
  referendum takes no ballots at any later time.
* **Moving the schedule can put stored votes outside the window.** A change keeps them all inside if and
  only if the new window takes in the first and the last vote of the contest.
* **A manual close is undone by a sync in the same instant**, the end of the window being moved to now
  and the window including its end; and by an opening time that arrives when no closing time is set.
* **Top-up seats do not always undo an overhang.** Say a list is due its share of the lists' seats
  rounded down, or its constituency seats when it has won more. Every list ends with at least its share
  if and only if what the lists are due fits into the seats there are. Without overhang it always fits;
  with overhang it may (1 and 9 votes, one constituency won by the smaller) or may not.
* **One key version for three purposes.** `build_encryption_args` reports the version of STORAGE. New
  writes use the active key of a purpose if and only if it has been rotated as often as STORAGE
  (TechnicalManual.md:591 promises it always); rotate STORAGE more often and nothing can be written;
  rotating SEARCH alone changes nothing, and once STORAGE is rotated no search finds a row written before
  (`BlindIndex`).
* **A Single Transferable Vote majority is a majority of the seats that parties hold**: independents and
  empty seats are not in `total_seats`.

## Model

| member | source | states |
|---|---|---|
| AlternativeVote.AvCount | backend/app/service/result_service.py:581-620 | None exactly when every ballot is blank; otherwise the eliminations made form a legal run of rounds that ends with the winner. |
| AlternativeVote.CountRound | backend/app/service/result_service.py:594-620 | One round decides for a majority holder or the last candidate left, or names a candidate with the fewest votes whose removal leaves two counted. |
| AlternativeVote.Tally | backend/app/service/result_service.py:595-600 | The dictionary holds exactly the candidates with votes, each with the number of ballots whose first surviving preference it is. |
| AlternativeVote.OthersStayCounted | backend/app/service/result_service.py:594-620 | After an elimination at least two candidates are still counted, so no later round finds an empty dictionary and the last `else None` is never reached. |
| Ballots.VotesNeverFall | backend/app/service/result_service.py:595-600 | Eliminations never take votes from a continuing candidate. |
| AlternativeVoteTheorems.CoalitionSurvives | backend/app/service/result_service.py:594-620 | No legal run eliminates every member of a set backed by a mutual majority. |
| AlternativeVoteTheorems.MutualMajorityWins | backend/app/service/result_service.py:581-620 | If more than half of the ballots that are not blank rank all of S before anybody else, every legal run elects a member of S. |
| AlternativeVoteTheorems.NeverACondorcetLoser | backend/app/service/result_service.py:594-620 | When another candidate is on the ballots, the winner beats or ties at least one of them head to head. |
| AlternativeVoteTheorems.LaterPreferencesDoNotMatter | backend/app/service/result_service.py:594-620 | Adding preferences below w on ballots that list w neither helps nor harms w: the same runs elect w before and after. |
| SingleTransferableVote.QuotaIsLeast | backend/app/service/result_service.py:439-440 | The quota is the least q with (seats + 1) * q above the number of ballots. |
| SingleTransferableVote.StvCount | backend/app/service/result_service.py:430-480 | The count as written follows a legal run of rounds on whole ballots to a state where the seats are full or nothing counts. |
| SingleTransferableVote.CountRound | backend/app/service/result_service.py:449-478 | A round elects candidates at the quota, all of them unless seats run out, or eliminates one with the fewest votes; weights are unchanged and the set of decided candidates grows. |
| SingleTransferableVote.ElectBatch | backend/app/service/result_service.py:463-475 | The loop elects a prefix of the candidates at the quota, cut off by the seats, and its transfer changes no ballot's weight. |
| SingleTransferableVote.RunsAreWellFormed | backend/app/service/result_service.py:446-480 | In every state reached the elected are distinct, at most the number of seats, and disjoint from the eliminated. |
| SingleTransferableVote.TallyOfFullBallots | backend/app/service/result_service.py:442-456 | While all weights are 1 the weighted tally is an integer count of ballots. |
| WeightedBallots.Tally | backend/app/service/result_service.py:451-457 | The weighted dictionary holds exactly the candidates with a ballot, each with the weight of the ballots that count for it. |
| WeightedBallots.TransferSurplus | backend/app/service/result_service.py:468-473 | The in-place loop scales exactly the ballots whose first active candidate is the one given. |
| WeightedBallots.TransferOfElected | backend/app/service/result_service.py:465-473 | Once the candidate is in the elected list the transfer leaves every ballot as it was. |
| SingleTransferableVoteTheorems.AtMostSeatsReachQuota | backend/app/service/result_service.py:440-463 | No more candidates than seats can hold a quota at once. |
| SingleTransferableVoteTheorems.FirstPreferenceQuotaIsElected | backend/app/service/result_service.py:449-480 | Every candidate with a quota of first preferences is elected. |
| SingleTransferableVoteTheorems.CoalitionNeverDiesOut | backend/app/service/result_service.py:476-478 | The last member of a solid coalition of a quota is never eliminated. |
| SingleTransferableVoteTheorems.CoalitionElectsOrSeatsAreFull | backend/app/service/result_service.py:449-480 | Such a coalition elects one of its own unless all seats are filled. |
| SingleTransferableVoteTheorems.CoalitionWinsItsQuotas | backend/app/service/result_service.py:449-480 | A solid coalition of k quotas wins k seats, or one for each of its candidates, unless all seats are filled. |
| SingleTransferableVoteTheorems.CompleteBallotsFillEverySeat | backend/app/service/result_service.py:449-480 | When every ballot ranks every candidate, as many are elected as there are seats or candidates. |
| FilledSeats.FillsEverySeatOnCompleteBallotsOnly | backend/app/service/result_service.py:449-480 | On all ballots that each omit at most k of the candidates, every count elects as many as there are seats or candidates if and only if k is 0. |
| SingleTransferableVoteTheorems.SingleChoiceElectsQuotaHolders | backend/app/service/result_service.py:449-480 | With one name per ballot exactly the holders of a quota are elected, whatever seats stay empty. |
| SingleTransferableVoteTheorems.EverySeatMayStayEmpty | backend/app/service/result_service.py:449-480 | For any number of seats, one more voter than seats, each naming a candidate of their own, elect nobody. |
| SurplusNotTransferred.CoalitionsRepresentedForOneSeatOnly | backend/app/service/result_service.py:463-475 | As written, every quota coalition gets a member elected on all ballots if and only if there is one seat. |
| SurplusNotTransferred.RepresentedExactlyAgainstFewerThanSeats | backend/app/service/result_service.py:463-475 | As written, quota coalitions with at most m candidates outside them are represented on all ballots if and only if m is below the number of seats, or there is one seat. |
| SurplusNotTransferred.OverRepresentationForSeveralSeats | backend/app/service/result_service.py:463-475 | As written, no group wins more seats than the ballots listing it hold quotas, on all ballots, if and only if there is one seat. |
| SurplusNotTransferred.SlateSweeps | backend/app/service/result_service.py:463-475 | For any number of seats from two, seats + 1 like-minded voters take every seat from two others who hold a quota. |
| SurplusTransferred.CountWithTransfer | backend/app/service/result_service.py:442-480 | The intended version, with the append after the transfer loop: at most `seats` elected, every quota coalition represented, no group above its share. |
| SurplusTransferred.ElectingKeepsInv | backend/app/service/result_service.py:464-473 | Intended version: electing and transferring keeps, for every group, seats * quota + remaining weight within the ballots that list it. |
| SurplusTransferred.NeverMoreThanSeats | backend/app/service/result_service.py:464-475 | Intended version: the quota alone keeps the elected within the seats, without the loop's cut-off. |
| SurplusTransferred.FinishedRepresentsCoalitions | backend/app/service/result_service.py:449-480 | Intended version: in every final state each quota coalition has a seat. |
| SurplusCost.TransferLosesASeat | backend/app/service/result_service.py:462-475 | Intended version: on six complete ballots for three seats, the first round elects two, leaves no ballot any weight, and the third seat stays empty, though the three candidates are backed by three quotas. |
| SurplusCost.AsWrittenAllAreElected | backend/app/service/result_service.py:449-480 | As written, every count of the same ballots fills the three seats. |
| AdditionalMemberSystem.BestParty | backend/app/service/result_service.py:264-273 | The party chosen has a largest next quotient, compared without rounding. |
| AdditionalMemberSystem.AllocateTopUp | backend/app/service/result_service.py:258-274 | The top-ups add up to the number of top-up seats and satisfy D'Hondt: each was worth as many votes per seat as one more seat to any other list. |
| AdditionalMemberSystem.DHondtDiffersOnlyAtTies | backend/app/service/result_service.py:263-274 | Two allocations of equally many seats by the rule differ for two lists only where their quotients are equal. |
| AdditionalMemberSystem.MoreSeatsHurtOnlyAtTies | backend/app/service/result_service.py:263-274 | With more rounds a list can have fewer top-ups only where it is tied with one that has more. |
| AdditionalMemberSystem.MoreSeatsNeverHurt | backend/app/service/result_service.py:263-274 | Without ties, running more rounds never removes a seat. |
| AdditionalMemberSystem.DHondtIsUnique | backend/app/service/result_service.py:263-274 | Without ties the allocation is unique, whatever the order of the dictionary. |
| AdditionalMemberSystem.LowerQuotaExactlyWhen | backend/app/service/result_service.py:258-281 | Every list ends with at least its share rounded down if and only if the sum, over the lists, of share or constituency seats, whichever is more, is at most the number of seats. |
| AdditionalMemberSystem.LowerQuota | backend/app/service/result_service.py:258-281 | Hence it does whenever no list's constituency seats exceed its exact share. |
| AdditionalMemberSystem.OverhangBreaksLowerQuota | backend/app/service/result_service.py:258-281 | A case where it fails: 4 constituencies won on 1 vote of 100 leave the list with 99 at 4 seats of 8, below its share of 7. |
| AdditionalMemberSystem.OverhangMayDoNoHarm | backend/app/service/result_service.py:258-281 | A case of overhang where every list still gets its share. |
| ElectionResults.GroupByConstituency | backend/app/service/result_service.py:186-192 | The groups are exactly the tallies of each constituency that has any, in order. |
| ElectionResults.BuildConstituencyResults | backend/app/service/result_service.py:136-173 | One result per constituency naming a candidate with the most votes; each party's seats are the constituencies its candidates won; the total is the sum. |
| ElectionResults.SeatsAreWins | backend/app/service/result_service.py:155-171 | Where each result names its winner's party by the map of candidates to parties, the seats of a party are the results whose winner the map sends to it. |
| ElectionResults.MajorityParty | backend/app/service/result_service.py:198-205 | The loop returns a party if and only if it holds a majority; no two can, so order does not matter. |
| ElectionResults.ResultsFptp | backend/app/service/result_service.py:179-218 | Exactly the constituencies with tallies are reported, each once; seats, totals and the overall winner follow from their results. |
| ElectionResults.Separate | backend/app/service/result_service.py:229-246 | Constituency tallies and list votes are told apart without losing any; the lists are exactly the parties with a list tally. |
| ElectionResults.SeparationLosesNothing | backend/app/service/result_service.py:239-246 | Where every tally is a constituency candidate's or names a party, candidates' votes and list votes add up to all votes. |
| ElectionResults.ListVotesOfOne | backend/app/service/result_service.py:242-246 | A tally counts for its party exactly when it lacks a candidate or a constituency. |
| ElectionResults.LocalAsOften | backend/app/service/result_service.py:242-244 | A tally with candidate and constituency is kept as often as it is given, any other never. |
| ElectionResults.ResultsAms | backend/app/service/result_service.py:224-303 | Each constituency with candidate tallies is reported once, first past the post; as many D'Hondt seats go to the parties with list tallies; the total adds local and list votes; winner exactly when a party holds a majority of both kinds of seats. |
| AmsEndToEnd.NoListIsEverCounted | backend/app/service/voting_service.py:279-286 | After any run the rows stored for a list are as many as the ballots accepted for it, and the tallies read for the result hold none of them. |
| AmsEndToEnd.CountElection | backend/app/service/result_service.py:224-303 | From the tallies of any run to the result: constituencies won and counted by the stored rows, half of the seats empty, and no party ever the overall winner. |
| RankedRows.SplitUndoesMark | backend/app/service/voting_service.py:206 | Splitting a marked token gives it back exactly when the token does not contain the mark. |
| RankedRows.RankGivesPosition | backend/app/service/voting_service.py:499-508 | On ranks accepted by the validator, the candidate ranked r stands at position r of the ballot. |
| RankedRows.SortingIsDetermined | backend/app/service/result_service.py:309-325 | Valid preferences sort to the same ballot from any order. |
| RankedRows.VotesToBallots | backend/app/service/result_service.py:309-325 | The buffer loop gives one ballot per base token, its candidates in rank order. |
| RankedRows.RowsRegroupIntoBallots | backend/app/service/voting_service.py:193-214 | Rows written for ballots with distinct clean tokens, read back in any order, regroup into exactly those ballots. |
| RankedElections.RowsAreTheAcceptedBallots | backend/app/repository/vote_repo.py:61-82 | After any run the ranked rows of a constituency are those of the ballots accepted there. |
| RankedElections.AcceptedBallotsAreWellCast | backend/app/service/voting_service.py:171-183 | After any run the accepted ranked ballots have distinct tokens free of the mark, and valid ranks. |
| RankedElections.BallotsCountedAreBallotsCast | backend/app/service/result_service.py:309-325 | After any run, what is counted in a constituency is the multiset of ballots accepted there. |
| RankedTurnout.EveryBallotIsSomewhere | backend/app/repository/vote_repo.py:46-82 | After any run, the ballots accepted in the constituencies read and those without a constituency add up to the ranked ballots accepted. |
| RankedTurnout.UnplacedBallotIsCountedNowhere | backend/app/repository/vote_repo.py:61-82 | An accepted ranked ballot without a constituency adds no row to any constituency. |
| RankedTurnout.ConstituencyMayBeOmitted | backend/app/service/voting_service.py:498-508 | Any ranked ballot that is accepted would be accepted without its constituency too. |
| RankedElections.CountConstituency | backend/app/service/result_service.py:508-520 | From stored rows to winner: None exactly when nobody voted there, else a winner that a legal count of the accepted ballots elects; so a mutual majority of them decides. |
| RankedResults.ConstituencyIds | backend/app/repository/vote_repo.py:46-59 | Each constituency with votes once; rows without a constituency are passed over. |
| RankedResults.ResultsAv | backend/app/service/result_service.py:486-579 | For the stored rows of any run and the ids read from them: no constituency with an accepted ballot is missing, each winner is elected by a legal count of its accepted ballots, the total counts all accepted ballots but those without a constituency, and seats and majority follow. |
| RankedResults.CountIsPlaces | backend/app/service/result_service.py:403-406 | The seats counted for a party are the winners the map of candidates to parties sends to it. |
| RankedResults.NoConstituencyMissing | backend/app/repository/vote_repo.py:46-59 | After any run every constituency with an accepted ranked ballot is among the ids read. |
| RankedResults.ElectedAreStvWinners | backend/app/service/result_service.py:430-480 | Whoever a legal count with five seats elects are distinct candidates on the ballots, include all quota holders and serve every quota coalition unless seats are full. |
| Permutations.AvIgnoresBallotOrder | backend/app/service/result_service.py:581-620 | The runs that elect a candidate are the same for any order of the ballots. |
| Permutations.StvIgnoresBallotOrder | backend/app/service/result_service.py:430-480 | The same for the Single Transferable Vote. |
| RankedResults.ResultsStv | backend/app/service/result_service.py:327-428 | The same for the Single Transferable Vote with five seats each: a legal count elects the winners, quota holders are in, coalitions served or seats full; the majority is of the seats that parties hold. |
| VotingWindow.InitialStatusNeedsNoSync | backend/app/application/core/voting_window.py:49-62 | A row created with the implied status is left alone by a sync at that time. |
| VotingWindow.SyncIsIdempotent | backend/app/service/voting_schedule_status_sync.py:24-49 | A second sync at the same time changes nothing; a sync touches only the status and never enters or leaves DRAFT or CANCELLED. |
| VotingWindow.SyncIs | backend/app/service/voting_schedule_status_sync.py:24-49 | After a sync a row with a schedule is open exactly from its opening to its closing time, both included; drafts, cancelled rows and rows without a schedule keep their status. |
| VotingWindow.InitialStatusIs | backend/app/application/core/voting_window.py:49-62 | A new row is open exactly when it has a schedule that now is within, else closed. |
| VotingWindow.CancelledIsFinal | backend/app/service/election_service.py:23-37 | Neither a sync nor any accepted update leaves CANCELLED. |
| VotingWindow.UpdateChangesOnlyWhatIsAsked | backend/app/service/election_service.py:157-274 | An accepted update follows the allowed transitions, stores the system and opening time asked for, changes the system of drafts only, and a time only on request, on an early close or on a late reopening. |
| VotingWindow.UpdateAcceptedExactlyWhen | backend/app/service/election_service.py:157-207 | An update is accepted if and only if it asks for something, for draft columns on drafts only, and for one of the seven allowed transitions; which error it gets otherwise. |
| VotingWindow.UpdateStoresWhatIsAsked | backend/app/service/election_service.py:186-219 | After an accepted update every column is the one asked for, else the old one; the closing time is now on an early close and gone on a late reopening. |
| VotingWindow.StatusAfterUpdate | backend/app/service/election_service.py:157-274 | The status is the one asked for; without one drafts and cancelled rows keep theirs and any other follows its new schedule. |
| VotingWindow.ManualCloseSurvives | backend/app/service/election_service.py:190-196 | A close survives a sync at a later time unless only an opening time is set and it has arrived. |
| VotingWindow.CloseUndoneAtSameInstant | backend/app/service/election_service.py:190-196 | A sync at the time of the close reopens exactly when there is a schedule and that time is inside the window. |
| VotingWindow.ReopeningSurvives | backend/app/service/election_service.py:201-219 | A reopening survives a later sync exactly while the window that is left, without a closing time that had passed, lasts. |
| VotingWindow.LockedMeansClosedForGood | backend/app/application/core/voting_window.py:32-46 | A closed row stays closed under all later syncs exactly when its schedule locks it. |
| VotingDatabase.Database.Sync | backend/app/service/voting_schedule_status_sync.py:24-49 | The stored row becomes the synced one and nothing else changes. |
| VotingDatabase.Database.Update | backend/app/service/election_service.py:157-274 | The stored row becomes the updated one with snap, clearing and re-sync, every column asked for carried out, or an error leaves all tables alone. |
| VotingDatabase.Database.Issue | backend/app/service/ballot_service.py:93-133 | One unused token per value for an open contest, or an error and no token. |
| VotingDatabase.Database.Increment | backend/app/repository/tally_result_repo.py:22-86 | Select, then update the one row or insert the first; an error on several. |
| VotingDatabase.Database.Consume | backend/app/service/voting_service.py:257-293 | Token used, one ledger entry, one tally, or an error. |
| VotingDatabase.Database.Cast | backend/app/service/voting_service.py:103-334 | The step-by-step request does what the specification says to every table, and nothing when it fails. |
| VotingDatabase.Database.CastReferendum | backend/app/service/voting_service.py:336-474 | The same for referendum ballots. |
| VotingDatabase.NextIsNew | backend/app/repository/ballot_token_repo.py:23-34 | A value extends a batch exactly when no token, stored or earlier in the batch, has its index. |
| CastingRules.CastAcceptedExactlyWhen | backend/app/service/voting_service.py:103-224 | In a sound state a ballot is accepted if and only if its election takes ballots by status and schedule, the voter may vote and has not, the ballot is filled in as the system asks, its text spells an unused stored token of this election (and constituency, if given), and its candidates exist. |
| CastingRules.CastErrors | backend/app/service/voting_service.py:119-183 | The first condition that fails decides the error; after the sync the check of the window itself never fails. |
| CastingRules.ReferendumAcceptedExactlyWhen | backend/app/service/voting_service.py:336-420 | The same equivalence for referendums, without payload and candidates. |
| CastingRules.ContestCheck | backend/app/service/voting_service.py:129-143 | Synced, a contest passes its checks exactly when its schedule takes in now or, without a schedule, it is open; what it fails with otherwise. |
| CastingRules.StoredInStep | backend/app/service/election_service.py:64-97 | Creating or visiting a contest stores it open exactly when its schedule and status let it take ballots, and changes nothing else. |
| CastingRules.PayloadCheck | backend/app/service/voting_service.py:476-508 | What each system asks of a ballot, and the error for each thing missing. |
| CastingRules.TokenErrors | backend/app/service/voting_service.py:164-183 | For a voter who has not voted, each token error told by the stored token that the text spells. |
| CastingRules.CaseDoesNotMatter | backend/app/service/encryption_service.py:87-95 | Texts that differ in case only lead to the same token. |
| CastingRules.CastIsRecorded | backend/app/service/voting_service.py:257-263 | An accepted ballot leaves its contest open, its token used and one more ledger entry; all other rows are as they were. |
| CastingRules.ReferendumIsRecorded | backend/app/service/voting_service.py:336-474 | So does a referendum ballot, which adds the one vote row it asks for. |
| CastingRules.FptpRow | backend/app/service/voting_service.py:244-255 | Under first past the post one row is added, for the candidate and constituency named. |
| CastingRules.AmsRows | backend/app/service/voting_service.py:215-243 | Under the Additional Member System a row for the candidate, if named, then one for the list, if named, with ":list" after its text exactly when both are. |
| CastingRules.RowPerPreference | backend/app/service/voting_service.py:189-214 | Under the ranked systems one row per preference, in the order listed, marked with its rank in decimal. |
| ListVotes.EveryListVoteIsStored | backend/app/service/voting_service.py:229-241 | After any run the rows stored for a list in an election are as many as the accepted ballots of that system that name it. |
| CastingRules.IssuedExactlyWhen | backend/app/service/ballot_service.py:93-133 | Tokens are issued if and only if the contest exists with stored status OPEN and the batch repeats no token, in itself or stored. |
| CastingRules.IssuedTokensAre | backend/app/service/ballot_service.py:93-133 | Exactly the batch is added, unused, for the contest and constituency asked; all tokens stored before stay. |
| RankedRows.ConsecutiveMeansAllRanks | backend/app/service/voting_service.py:503-508 | Sorted ranks are 1, 2, ... exactly when each rank from 1 to the number of preferences is given. |
| RankedRows.DigitsAreDecimal | backend/app/service/voting_service.py:206 | The rank in a row's text is its decimal form, without leading zeros. |
| VotingRuns.StepKeepsSound | backend/app/service/voting_service.py:164-183 | Every request keeps: one ledger entry per voter and contest, one tally row per key, used tokens equal to ledger entries. |
| VotingRuns.RunKeepsSound | backend/app/service/voting_service.py:257-293 | So does every run. |
| VotingRuns.AcceptedExactlyWhenChecked | backend/app/service/voting_service.py:129-183 | In a sound state a ballot is accepted exactly when its checks pass; no later step can turn it away. |
| VotingRuns.AlwaysReconciled | backend/app/service/audit_report_service.py:377-412 | After any run of requests `fully_reconciled` is true and no voter is in the ledger twice. |
| VotingRuns.RunKeepsTokens | backend/app/repository/ballot_token_repo.py:114-134 | No run forgets a token, moves it, or makes a used one unused. |
| VotingRuns.UsedTokenStaysRefused | backend/app/service/voting_service.py:171-183 | A used token is refused after any run, whoever sends it and in whatever case of letters. |
| VotingRuns.SystemIsFixed | backend/app/repository/election_repo.py:125-173 | Over any run in which a contest is never a draft, its electoral system stays what it was. |
| VotingRuns.StatusOnlyKeepsWindow | backend/app/service/election_service.py:190-219 | A change of status alone, with its snap or clearing, keeps earlier votes inside the window. |
| VotingRuns.VotesStayWithinWindow | backend/app/service/voting_service.py:129-143 | Over any run with a clock that never goes back and status-only changes, every stored vote lies within the current window of its contest. |
| Rescheduling.ChangeKeepsWindowsExactlyWhenSafe | backend/app/service/election_service.py:157-274 | A change by officials keeps every stored vote inside its window if and only if it is rejected or the new window contains the first and the last vote of the contest. |
| Rescheduling.AlwaysWindowedExactlyWhenSafe | backend/app/service/audit_report_service.py:501-524 | Over any run with a clock that never goes back, votes are inside their windows after every request if and only if every change in it is of that kind. |
| AuditReport.FirstAndLast | backend/app/service/audit_report_service.py:503-508 | The least and greatest of the times, or neither. |
| AuditReport.AllVotesWithinWindow | backend/app/service/audit_report_service.py:501-524 | Comparing the first and last vote decides about all votes. |
| AuditReport.AllReferendumVotesWithinWindow | backend/app/service/audit_report_service.py:526-550 | The same for referendum votes. |
| AuditReport.AuditFindsVotesWithinWindow | backend/app/service/audit_report_service.py:501-524 | After a run with a clock that never goes back and status-only changes, every vote of the election is within its window. |
| AuditReport.AuditFindsReferendumVotesWithinWindow | backend/app/service/audit_report_service.py:526-550 | So is every vote of a referendum. |
| AuditReport.VotingPeriodOfRun | backend/app/service/audit_report_service.py:501-550 | So the flag the audit computes after such a run is true. |
| TallyIndex.BallotKeepsIndexExactlyWhenListedInOrder | backend/app/service/voting_service.py:265-293 | An accepted ballot keeps all tallies of its election equal to a recount if and only if the candidate it lists first is the one it ranks first. |
| TallyIndex.TallyIsRecount | backend/app/repository/tally_result_repo.py:22-86 | After any run whose accepted ranked ballots are listed so, every tally of the contest equals a recount of vote rows. |
| TallyIndex.TallyIsRecountExactlyWhen | backend/app/service/voting_service.py:265-293 | A run keeps them equal if and only if, for every key, as many of its accepted ballots list the candidate first as rank it first; a condition on the run, known when it is over. |
| MisorderedBallot.TallyGoesToTheWrongCandidate | backend/app/service/voting_service.py:265-278 | A run of one voter, listing rank 2 before rank 1, after which one candidate has a tally without a vote and the other a vote without a tally. |
| TallyIndex.RowHoldsTally | backend/app/repository/tally_result_repo.py:22-86 | With one row per key, a stored row's count is the tally of its key. |
| TallyIndex.ReferendumKeepsIndex | backend/app/repository/tally_result_repo.py:131-178 | Referendum ballots keep tally and recount equal. |
| TallyIndex.RowsCountUnderKey | backend/app/service/voting_service.py:189-255 | The rows of a valid ballot count once, under the candidate ranked first. |
| Turnout.EverySpentTokenIsTalliedOnce | backend/app/service/voting_service.py:257-293 | After any run, a contest's tallies and its list-only ballots add up to its used tokens. |
| Turnout.OnlyListsAreNotTallied | backend/app/service/voting_service.py:279-286 | The only accepted ballots that no tally counts are AMS ballots for a list. |
| FptpEndToEnd.WinnerHasMostVotes | backend/app/service/result_service.py:136-173 | After any run of ballots listed in order, a constituency's winner has at least as many stored votes as any rival. |
| LocalTotals.TalliesAddUpToRows | backend/app/repository/tally_result_repo.py:22-86 | After any run, in any set of constituencies, tallies add up to the stored local votes, however ballots list their preferences. |
| LocalTotals.TotalsMatchRows | backend/app/service/result_service.py:136-173 | After any run every constituency's total is the number of local votes stored there, and the election's total the number of all of them. |
| FptpEndToEnd.CountElection | backend/app/service/result_service.py:179-218 | From stored tallies to the result of an election that is never ranked: winners, constituency totals and the total are those of the vote rows. |
| ResultCache.ResultService.GetElectionResults | backend/app/service/result_service.py:59-80 | Cached result first, else computed, and kept only when closed; a coherent cache stays so and answers with what would be computed. |
| ResultCache.ClosedFiguresStay | backend/app/service/voting_service.py:131-143 | A request after which a closed election is still closed has not touched its votes, tallies or system. |
| ResultCache.CacheStaysCoherent | backend/app/service/result_service.py:59-80 | The cache agrees with the tables after every run in which no cached election leaves CLOSED. |
| ResultCache.ClosedResultIsFinalExactlyWhenLocked | backend/app/service/result_service.py:32-41 | Figures of a closed election are final under all later requests but official changes if and only if its schedule is locked. |
| ReferendumResults.ReferendumService.GetReferendumResults | backend/app/service/result_service.py:82-117 | The cached result if there is one, else the sums of the YES and NO tallies with the side that has more, kept from then on whatever the status. |
| ReferendumResults.ResultIsThatOfTheVotes | backend/app/service/result_service.py:88-107 | After any run YES has won if and only if more votes are stored for YES than for NO, likewise NO and a tie, and the numbers are those of the stored votes. |
| ReferendumResults.FirstAnswer | backend/app/service/result_service.py:82-117 | So says the first answer of a service, in terms of the stored votes alone. |
| ReferendumResults.CachedResultHoldsExactlyWhenNobodyVotes | backend/app/service/result_service.py:84-86 | A result cached before a run is what would be computed after it if and only if the run accepts no ballot in the referendum. |
| ReferendumResults.ResultIsFinalExactlyWhenShut | backend/app/service/result_service.py:116 | Officials leaving it alone, a referendum's result is final if and only if it takes no ballots at any later time, which its status and schedule decide. |
| KeyManagement.Latin1IsTransparent | backend/app/service/keys_manager_service.py:184-189 | Decoding key bytes as Latin-1 and encoding again returns them. |
| KeyManagement.RotatingKeepsOrder | backend/app/service/keys_manager_service.py:156-172 | Rotation keeps versions 1, 2, ... per slot with the highest alone active. |
| KeyManagement.RotatingKeepsKeys | backend/app/service/keys_manager_service.py:156-172 | Every older key keeps its bytes, the new version is one higher and unwraps to the key generated, other slots are untouched. |
| KeyManagement.InitialisingForVersions | backend/app/service/keys_manager_service.py:63-83 | Initialising gives each purpose of the organisation its first version and leaves every slot that has one. |
| KeyManagement.InitialisingGivesKeys | backend/app/service/keys_manager_service.py:63-83 | Each purpose that had no key can be fetched with the key generated for that purpose. |
| KeysManager.KeysRepository.GetActive | backend/app/repository/keys_manager_repo.py:32-51 | An active row with the highest version; in an ordered table the newest. |
| KeysManager.KeysRepository.GetByVersion | backend/app/repository/keys_manager_repo.py:53-68 | The one row with the version, none, or several. |
| KeysManager.KeysRepository.DeactivateAll | backend/app/repository/keys_manager_repo.py:70-85 | Exactly the rows of the slot become inactive. |
| KeysManager.KeysRepository.NextVersion | backend/app/repository/keys_manager_repo.py:87-100 | One more than the highest version, or 1. |
| KeysManager.NeverRepeated | backend/app/repository/keys_manager_repo.py:53-68 | In an ordered table no version of a slot is stored twice. |
| KeysManager.CacheStaysCoherent | backend/app/service/keys_manager_service.py:57-58 | A plain-key cache stays right while others create and rotate keys. |
| KeysManager.KeysManager.InitOrgKeys | backend/app/service/keys_manager_service.py:63-83 | Missing keys are created, existing ones kept; the result names the newest row of each purpose. |
| KeysManager.KeysManager.GetDek | backend/app/service/keys_manager_service.py:89-119 | Cached or not, the answer is what the stored row of the version, or of the newest, unwraps to; an error exactly when there is none. |
| KeysManager.KeysManager.BuildEncryptionArgs | backend/app/service/keys_manager_service.py:121-150 | Succeeds exactly when all three purposes have keys; the version is that of STORAGE. |
| KeysManager.KeysManager.RotateDek | backend/app/service/keys_manager_service.py:156-172 | The table is the rotated one, order and cache stay right, the new row is returned. |
| KeyRuns.RunKeepsKeys | backend/app/service/keys_manager_service.py:63-172 | Any run of initialisations and rotations keeps versions gapless with the highest alone active, and every key fetchable with its bytes. |
| KeyRuns.VersionsCountRotations | backend/app/service/keys_manager_service.py:156-206 | A slot's latest version grows by exactly its rotations. |
| KeyRuns.WritesUseTheActiveKeyExactlyWhen | backend/app/service/keys_manager_service.py:121-150 | A write takes the active key of a purpose if and only if it was rotated as often as STORAGE, and fails if and only if less often. |
| KeyRuns.SearchKeyStaysExactlyWhen | backend/app/service/encryption_mapper_service.py:80-90 | Searches use the key that rows were indexed with if and only if STORAGE was not rotated since. |
| FieldEncryption.HexRoundTrip | backend/app/service/encryption_service.py:72-85 | Hexadecimal text, two digits a byte, decodes to the bytes it was made from. |
| FieldEncryption.HexIs | backend/app/service/encryption_service.py:72-85 | Two small digits a byte, the high one first. |
| FieldEncryption.FieldRoundTrip | backend/app/service/encryption_service.py:48-85 | A field decrypts under its key to the text it was made from; ciphertext, nonce and tag have the sizes of the format. |
| FieldEncryption.FieldIs | backend/app/service/encryption_service.py:48-76 | A field holds, in hexadecimal, the sealed text without its last 16 bytes, the nonce and those bytes, and the keyed hash of the text in lower case if a search key is given. |
| FieldEncryption.TokensAreEqualExactlyWhen | backend/app/service/encryption_service.py:87-95 | Two blind indexes are equal if and only if the keys and the lower-case texts are. |
| FieldEncryption.ParseRoundTrip | backend/app/service/encryption_service.py:119-124 | Length, header and ciphertext are found again in the wire format. |
| FieldEncryption.StreamRoundTrip | backend/app/service/encryption_service.py:101-128 | A stream decrypts to its data and names the version it was sealed under. |
| FieldEncryption.StreamIs | backend/app/service/encryption_service.py:101-117 | The wire format byte for byte, and when its header is too long for it. |
| FieldEncryption.PackIsBigEndian | backend/app/service/encryption_service.py:117 | The length is four bytes, the highest first. |
| EncryptionMapper.EncryptionMapper.EncryptValue | backend/app/service/encryption_mapper_service.py:50-66 | Seals the value under the stored DATABASE key of the given version, with a token under SEARCH when asked, or fails for a missing key. |
| EncryptionMapper.EncryptionMapper.DecryptValue | backend/app/service/encryption_mapper_service.py:68-78 | Opens a field with the stored key of the version it names. |
| EncryptionMapper.EncryptionMapper.EncryptDto | backend/app/service/encryption_mapper_service.py:96-144 | Succeeds if and only if both keys of the version are stored and every encrypted value has a column; then each field is sealed under the DATABASE key, copied or dropped, and a token column holds the hexadecimal of the keyed hash of the lower-case text under the SEARCH key. |
| EncryptionMapper.TokenAt | backend/app/service/encryption_mapper_service.py:130-139 | No other field overwrites a token column: it holds the token of its own field. |
| EncryptionMapper.EncryptionMapper.CreateSearchToken | backend/app/service/encryption_mapper_service.py:80-90 | The hexadecimal of the keyed hash of the lower-case text under the stored SEARCH key of the version, or a failure without that key. |
| BlindIndex.SearchFindsExactlyWhen | backend/app/service/encryption_mapper_service.py:80-139 | After any run a search finds a row if and only if the texts agree in lower case and the search takes the key the row was indexed with. |
| BlindIndex.FoundUntilStorageIsRotated | backend/app/service/encryption_mapper_service.py:80-139 | With the versions that are reported, a row is found by the texts that agree with its own in lower case until STORAGE is rotated, and by no text afterwards. |
| EncryptionMapper.EncryptionMapper.EncryptStream | backend/app/service/encryption_mapper_service.py:197-207 | A stream is sealed under the stored STORAGE key of the version. |
| EncryptionMapper.EncryptionMapper.DecryptStream | backend/app/service/encryption_mapper_service.py:209-228 | A stream is opened with the stored STORAGE key of the version it names, or of the current version. |
| EncryptionMapper.EncryptionMapper.DecryptModel | backend/app/service/encryption_mapper_service.py:146-191 | Every name gets its value: decrypted from a field or its dictionary form, decoded from bytes, or copied; fails exactly when some field cannot be read. |
| EncryptionMapper.ColumnReadsAs | backend/app/service/encryption_mapper_service.py:166-189 | What each kind of column reads as: fields and their dictionary form are opened with the DATABASE key of their version, text is passed on, bytes are decoded, anything else is dropped. |
| EncryptionMapper.ValueSurvives | backend/app/service/encryption_mapper_service.py:50-78 | A value once written reads back after any later initialisations and rotations. |
| EncryptionMapper.StreamSurvives | backend/app/service/encryption_mapper_service.py:197-228 | So does a stream, whatever version is current when it is read. |
| EncryptionMapper.ObjectSurvivesExactlyWhen | backend/app/service/encryption_mapper_service.py:96-191 | After any run a field of a written object reads back as it was if and only if the encrypted class has a column for it or it was empty. |
| EncryptionMapper.ObjectIsWrittenExactlyWhen | backend/app/service/encryption_mapper_service.py:96-144 | An object can be written if and only if DATABASE and SEARCH were rotated at least as often as STORAGE and every encrypted value has a column. |

## Left out

- Weights of the Single Transferable Vote are exact reals; the source's are floating-point numbers. As written all are 1.0, where the two agree.
- AdditionalMemberSystem.BestParty: quotients are compared exactly, by cross-multiplication; the source divides into floating-point numbers, which can tie two close quotients of very large votes.
- The times in a run are integers, and the clock is the event's; time zones are not modelled.
- VotingDatabase.Database.Cast: eligibility (voter found, age, place of residence) and the existence of candidates are the parameter `Facts`; emails, receipts, audit events and logging are not modelled.
- VotingDatabase.Database.Issue: the blind index of a token is the lower-case text itself, which amounts to a fixed search key and no collisions; what rotation does to that key is `KeyRuns.SearchKeyStaysExactlyWhen`. Lower-casing covers ASCII letters.
- VotingDatabase.Database.Update: one function serves elections and referendums; of the columns that only drafts may change it keeps the electoral system, and links to constituencies only as a flag.
- VotingRuns.AlwaysReconciled: rows edited outside the requests modelled, such as `create_voter_ledger`, are not part of a run; requests are served one after another, so anomalies of concurrent transactions are not modelled.
- VotingRuns.VotesStayWithinWindow: is about runs in which officials change only statuses; `Rescheduling` is about all runs.
- AuditReport.AllVotesWithinWindow: the per-constituency breakdown, turnout, timeline and simplified seat summary of the report are not modelled.
- ElectionResults.ResultsAms: takes any tallies; on those that casting writes it is `AmsEndToEnd.CountElection`.
- RankedResults.ResultsStv: the display of first-preference counts is not modelled; candidates are mapped to parties by a parameter.
- ResultCache.ResultService.GetElectionResults: a result is represented by the votes, tallies and system it is computed from; a candidate moving to another party and ties broken by the order of rows are outside.
- FieldEncryption.FieldRoundTrip: the cipher, UTF-8, JSON and the keyed hash are functions with round-trip laws; that ciphertexts hide or authenticate anything is not stated.
- KeysManager.KeysManager.GetDek: the key management service is a pair of functions that undo each other; a service instance lives for one request, so its cache is never older than its transaction.
- BlindIndex.SearchFindsExactlyWhen: the keyed hash is taken to be free of collisions; a look-up is one row against one token.
- EncryptionMapper.EncryptionMapper.EncryptDto: constructor arguments without a default are not modelled.
- Routes, login, identity checks, addresses, passports, biometrics, investigations, postcode lookup, email and the frontend are outside the model.
