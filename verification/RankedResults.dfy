/** Whole elections by ranked ballots: `_results_av` and `_results_stv` of
    backend/app/service/result_service.py, from the stored rows of a run to seats and a winner. */
module RankedResults {
  import opened Ballots
  import opened Dictionaries
  import opened Records
  import opened RankedRows
  import opened VotingRuns
  import opened RankedElections
  import opened RankedTurnout
  import opened Permutations
  import AlternativeVote
  import opened ElectionResults
  import SingleTransferableVote
  import SingleTransferableVoteTheorems

  /** Seats per constituency under the Single Transferable Vote. Contracts below say 5. */
  const SEATS := 5

  /** Each constituency of the election with votes, once. */
  ghost predicate AreIdsOf(ids: seq<Id>, votes: seq<Vote>, election: Id) {
    && Distinct(ids)
    && forall c :: c in ids <==> VotedIn(votes, election, c)
  }

  ghost predicate VotedIn(votes: seq<Vote>, election: Id, c: Id) {
    exists v :: v in votes && v.election == election && v.constituency == Some(c)
  }

  lemma {:induction false} VotedInNext(votes: seq<Vote>, election: Id, i: nat)
    requires i < |votes|
    ensures forall c :: VotedIn(votes[..i + 1], election, c)
                        <==> VotedIn(votes[..i], election, c)
                             || (votes[i].election == election && votes[i].constituency == Some(c))
  {
    assert votes[..i + 1] == votes[..i] + [votes[i]];
    forall c | VotedIn(votes[..i], election, c) ensures VotedIn(votes[..i + 1], election, c) {
      var v :| v in votes[..i] && v.election == election && v.constituency == Some(c);
      assert v in votes[..i + 1];
    }
    assert votes[i] in votes[..i + 1];
  }

  /** `get_constituency_ids_for_election`: rows without a constituency are passed over. */
  method ConstituencyIds(votes: seq<Vote>, election: Id) returns (ids: seq<Id>)
    ensures AreIdsOf(ids, votes, election)
  {
    ids := [];
    for i := 0 to |votes|
      invariant AreIdsOf(ids, votes[..i], election)
    {
      var v := votes[i];
      VotedInNext(votes, election, i);
      if v.election == election && v.constituency.Some? && v.constituency.value !in ids {
        ids := ids + [v.constituency.value];
      }
    }
    assert votes[..|votes|] == votes;
  }

  /** The rows read for a constituency are those stored there by the run, in some order. */
  ghost predicate AreRowsOf(rows: seq<RankedRow>, events: seq<Event>, election: Id, constituency: Id) {
    multiset(rows) == multiset(RankedRowsOf(Run(EMPTY, events).votes, election, constituency))
  }

  ghost function Accepted(events: seq<Event>, election: Id, constituency: Id): seq<Ballot> {
    AllBallots(AcceptedBallots(EMPTY, events, election, constituency))
  }

  lemma {:induction false} RankedRowsAreVotes(votes: seq<Vote>, election: Id, c: Id)
    ensures |RankedRowsOf(votes, election, c)| > 0 ==> VotedIn(votes, election, c)
  {
    if |votes| > 0 {
      RankedRowsAreVotes(votes[..|votes| - 1], election, c);
      VotedInNext(votes, election, |votes| - 1);
      assert votes[..|votes|] == votes;
    }
  }

  lemma {:induction false} RowsOfValid(cast: seq<CastBallot>)
    requires |cast| > 0 && forall c :: c in cast ==> |c.prefs| > 0
    ensures |AllRows(cast)| > 0
  {
    assert |RowsOf(cast[|cast| - 1])| > 0;
  }

  /** No constituency with an accepted ranked ballot is missing from the ids read. */
  lemma {:induction false} NoConstituencyMissing(events: seq<Event>, election: Id, ids: seq<Id>, c: Id)
    requires AreIdsOf(ids, Run(EMPTY, events).votes, election)
    ensures |AcceptedBallots(EMPTY, events, election, c)| > 0 ==> c in ids
  {
    var cast := AcceptedBallots(EMPTY, events, election, c);
    if |cast| > 0 {
      AcceptedBallotsAreWellCast(events, election, c);
      RowsOfValid(cast);
      RowsAreTheAcceptedBallots(events, election, c);
      RankedRowsAreVotes(Run(EMPTY, events).votes, election, c);
    }
  }

  lemma {:induction false} NoneIsMissing(ids: seq<Id>, events: seq<Event>, election: Id)
    requires AreIdsOf(ids, Run(EMPTY, events).votes, election)
    ensures NoneMissing(ids, events, election)
  {
    forall c ensures |AcceptedBallots(EMPTY, events, election, c)| > 0 ==> c in ids {
      NoConstituencyMissing(events, election, ids, c);
    }
  }

  // ---- Totals ----

  /** Results whose totals are the ballots accepted in their constituencies add up to all of those. */
  lemma {:induction false} TotalIsAccepted(results: seq<ConstituencyResult>, ids: seq<Id>, events: seq<Event>,
                                           election: Id)
    requires |results| == |ids|
    requires forall i :: 0 <= i < |ids| ==> results[i].total == |AcceptedBallots(EMPTY, events, election, ids[i])|
    ensures TotalVotes(results) == AcceptedOver(events, election, ids)
  {
    if |ids| > 0 {
      TotalIsAccepted(results[..|ids| - 1], ids[..|ids| - 1], events, election);
    }
  }

  /** Votes counted, and accepted ballots without a constituency, are the ballots accepted. */
  ghost predicate CountsAllButUnplaced(r: ElectionResult, events: seq<Event>, election: Id) {
    r.totalVotes + Unplaced(events, election) == AcceptedRanked(events, election)
  }

  // ---- The Alternative Vote ----

  /** Some legal run of the count elects the winner. */
  ghost predicate AvElects(bs: seq<Ballot>, winner: Id) {
    exists elim :: AlternativeVote.Elects(bs, elim, winner)
  }

  /** What a result says of the ballots accepted in its constituency. */
  ghost predicate IsAvResult(r: ConstituencyResult, events: seq<Event>, election: Id, parties: map<Id, Id>) {
    var cast := AcceptedBallots(EMPTY, events, election, r.constituency);
    && r.total == |cast|
    && NamesItsParty(r, parties)
    && (r.winner.None? <==> |cast| == 0)
    && (r.winner.Some? ==> AvElects(AllBallots(cast), r.winner.value) && MajoritiesDecide(cast, r.winner.value))
  }

  lemma {:induction false} AsManyAsAccepted(events: seq<Event>, election: Id, constituency: Id, rows: seq<RankedRow>,
                                            ballots: seq<Ballot>)
    requires AreRowsOf(rows, events, election, constituency) && ballots == BallotsOf(rows, Bases(rows))
    ensures |ballots| == |AcceptedBallots(EMPTY, events, election, constituency)|
  {
    var cast := AcceptedBallots(EMPTY, events, election, constituency);
    BallotsCountedAreBallotsCast(events, election, constituency, rows);
    SizeOfAccepted(cast);
    assert |ballots| == |multiset(ballots)| == |multiset(AllBallots(cast))|;
  }

  method AvResult(ghost events: seq<Event>, ghost election: Id, constituency: Id, rows: seq<RankedRow>,
                  parties: map<Id, Id>)
    returns (r: ConstituencyResult)
    requires AreRowsOf(rows, events, election, constituency)
    ensures r.constituency == constituency && IsAvResult(r, events, election, parties)
  {
    var ballots := VotesToBallots(rows);
    AsManyAsAccepted(events, election, constituency, rows, ballots);
    ghost var elim;
    var winner;
    winner, elim := RankedElections.CountConstituency(events, election, constituency, rows);
    r := ConstituencyResult(constituency, winner, PartyOf(parties, winner), |ballots|);
  }

  ghost predicate AreAvResults(results: seq<ConstituencyResult>, ids: seq<Id>, events: seq<Event>, election: Id,
                               parties: map<Id, Id>) {
    && |results| == |ids|
    && forall i :: 0 <= i < |ids| ==>
         results[i].constituency == ids[i] && IsAvResult(results[i], events, election, parties)
  }

  lemma {:induction false} AvResultsGrow(results: seq<ConstituencyResult>, ids: seq<Id>, i: nat, events: seq<Event>,
                                         election: Id,
                      parties: map<Id, Id>, r: ConstituencyResult)
    requires i < |ids| && AreAvResults(results, ids[..i], events, election, parties)
    requires r.constituency == ids[i] && IsAvResult(r, events, election, parties)
    ensures AreAvResults(results + [r], ids[..i + 1], events, election, parties)
    ensures TotalVotes(results + [r]) == TotalVotes(results) + r.total
  {
    assert (results + [r])[..|results|] == results;
  }

  ghost predicate AllRowsOf(rowsOf: Id -> seq<RankedRow>, ids: seq<Id>, events: seq<Event>, election: Id) {
    forall i :: 0 <= i < |ids| ==> AreRowsOf(rowsOf(ids[i]), events, election, ids[i])
  }

  /** The loops over the constituencies: winners, seats and the votes of all. */
  method AvResults(ghost events: seq<Event>, ghost election: Id, ids: seq<Id>, rowsOf: Id -> seq<RankedRow>,
                   parties: map<Id, Id>)
    returns (results: seq<ConstituencyResult>, keys: seq<Id>, seats: map<Id, nat>, totalVotes: nat)
    requires AllRowsOf(rowsOf, ids, events, election)
    ensures AreAvResults(results, ids, events, election, parties)
    ensures IsSeatTable(results, keys, seats) && totalVotes == TotalVotes(results)
  {
    results, keys, seats, totalVotes := [], [], map[], 0;
    for i := 0 to |ids|
      invariant AreAvResults(results, ids[..i], events, election, parties)
      invariant IsSeatTable(results, keys, seats)
      invariant totalVotes == TotalVotes(results)
    {
      var one := AvResult(events, election, ids[i], rowsOf(ids[i]), parties);
      keys, seats := AddSeat(results, one, keys, seats);
      AvResultsGrow(results, ids, i, events, election, parties, one);
      totalVotes := totalVotes + one.total;
      results := results + [one];
    }
    assert ids[..|ids|] == ids;
  }

  /** `_results_av`. */
  method ResultsAv(ghost events: seq<Event>, ghost election: Id, ids: seq<Id>, rowsOf: Id -> seq<RankedRow>,
                   parties: map<Id, Id>)
    returns (r: ElectionResult)
    requires AllRowsOf(rowsOf, ids, events, election) && AreIdsOf(ids, Run(EMPTY, events).votes, election)
    ensures NoneMissing(ids, events, election)
    ensures AreAvResults(r.constituencies, ids, events, election, parties)
    ensures r.totalSeats == |ids| && r.threshold == |ids| / 2 + 1
    ensures r.totalVotes == TotalVotes(r.constituencies)
    ensures CountsAllButUnplaced(r, events, election)
    ensures forall p :: At(r.seats, p) == |Wins(r.constituencies, parties, p)|
    ensures forall p :: r.winner == Some(p) <==> |Wins(r.constituencies, parties, p)| >= r.threshold
  {
    NoneIsMissing(ids, events, election);
    var results, keys, seats, totalVotes := AvResults(events, election, ids, rowsOf, parties);
    TotalIsAccepted(results, ids, events, election);
    EveryBallotIsSomewhere(events, election, ids);
    forall p ensures SeatsWon(results, p) == |Wins(results, parties, p)| {
      SeatsAreWins(results, parties, p);
    }
    var winner := MajorityParty(keys, seats, |ids|);
    r := ElectionResult(totalVotes, |ids|, |ids| / 2 + 1, results, seats, winner);
  }

  // ---- The Single Transferable Vote ----

  /** More than a sixth of the ballots put the candidate first: with five seats, a quota. */
  ghost predicate HoldsQuota(bs: seq<Ballot>, c: Id) {
    6 * Votes(bs, {}, c) > |bs|
  }

  /** More than a sixth of the ballots rank all of `S` before anybody else. */
  ghost predicate QuotaCoalition(bs: seq<Ballot>, S: set<Id>) {
    S != {} && 6 * Count(bs, IsSolid(S)) > |bs|
  }

  ghost predicate Serves(winners: seq<Id>, S: set<Id>) {
    exists c :: c in S && c in winners
  }

  /** Some legal run of the count elects the winners. */
  ghost predicate StvElects(bs: seq<Ballot>, winners: seq<Id>) {
    exists trace :: SingleTransferableVote.Elects(bs, 5, trace, winners)
  }

  /** What the winners of a constituency owe to the ballots accepted there. */
  ghost predicate AreStvWinners(winners: seq<Id>, bs: seq<Ballot>) {
    && StvElects(bs, winners)
    && Distinct(winners) && |winners| <= 5 && Elements(winners) <= Candidates(bs)
    && (forall c :: HoldsQuota(bs, c) ==> c in winners)
    && (forall S :: QuotaCoalition(bs, S) ==> Serves(winners, S) || |winners| == 5)
  }

  lemma {:induction false} ElectedAreStvWinners(bs: seq<Ballot>, trace: seq<SingleTransferableVote.Progress>,
                                                winners: seq<Id>)
    requires SingleTransferableVote.Elects(bs, SEATS, trace, winners)
    ensures AreStvWinners(winners, bs)
  {
    var q := SingleTransferableVote.Quota(|bs|, SEATS);
    SingleTransferableVote.RunsAreWellFormed(bs, SEATS, q, trace);
    forall c | HoldsQuota(bs, c) ensures c in winners {
      SingleTransferableVote.QuotaIsLeast(|bs|, 5, Votes(bs, {}, c));
      SingleTransferableVoteTheorems.FirstPreferenceQuotaIsElected(bs, SEATS, trace, winners, c);
    }
    forall S | QuotaCoalition(bs, S) ensures Serves(winners, S) || |winners| == 5 {
      SingleTransferableVote.QuotaIsLeast(|bs|, 5, Count(bs, IsSolid(S)));
      SingleTransferableVoteTheorems.CoalitionElectsOrSeatsAreFull(bs, SEATS, trace, winners, S);
    }
  }

  method StvWinners(ghost events: seq<Event>, ghost election: Id, ghost constituency: Id, rows: seq<RankedRow>)
    returns (winners: seq<Id>, total: nat)
    requires AreRowsOf(rows, events, election, constituency)
    ensures AreStvWinners(winners, Accepted(events, election, constituency))
    ensures total == |Accepted(events, election, constituency)|
  {
    var ballots := VotesToBallots(rows);
    BallotsCountedAreBallotsCast(events, election, constituency, rows);
    ghost var accepted := Accepted(events, election, constituency);
    assert |ballots| == |multiset(ballots)| == |multiset(accepted)| == |accepted|;
    total := |ballots|;
    ghost var trace;
    winners, trace := SingleTransferableVote.StvCount(ballots, SEATS);
    PermutationsCountAlike(ballots, accepted);
    StvIgnoresBallotOrder(ballots, accepted, SEATS, trace, winners);
    ElectedAreStvWinners(accepted, trace, winners);
  }

  /** How many of the winners satisfy `f`. */
  function CountWinners(winners: seq<Id>, f: Id -> bool): nat {
    if |winners| == 0 then 0
    else CountWinners(winners[..|winners| - 1], f) + if f(winners[|winners| - 1]) then 1 else 0
  }

  function StandsFor(parties: map<Id, Id>, party: Id): Id -> bool {
    c => c in parties && parties[c] == party
  }

  function HasParty(parties: map<Id, Id>): Id -> bool {
    c => c in parties
  }

  /** The places among the winners of all constituencies that satisfy `f`. */
  function Places(winners: seq<seq<Id>>, f: Id -> bool): set<(nat, nat)> {
    set i: nat, j: nat | i < |winners| && j < |winners[i]| && f(winners[i][j]) :: (i, j)
  }

  /** The places of one constituency, the `i`-th, below `n`. */
  function PlacesOf(winners: seq<Id>, i: nat, n: nat, f: Id -> bool): set<(nat, nat)>
    requires n <= |winners|
  {
    set j: nat | j < n && f(winners[j]) :: (i, j)
  }

  lemma {:induction false} CountOfOne(winners: seq<Id>, i: nat, n: nat, f: Id -> bool)
    requires n <= |winners|
    ensures CountWinners(winners[..n], f) == |PlacesOf(winners, i, n, f)|
  {
    if n == 0 {
      assert PlacesOf(winners, i, 0, f) == {};
    } else {
      CountOfOne(winners, i, n - 1, f);
      assert winners[..n][..n - 1] == winners[..n - 1];
      var before := PlacesOf(winners, i, n - 1, f);
      if f(winners[n - 1]) {
        assert PlacesOf(winners, i, n, f) == before + {(i, n - 1)};
      } else {
        assert PlacesOf(winners, i, n, f) == before;
      }
    }
  }

  lemma {:induction false} CountWinnersConcat(a: seq<Id>, b: seq<Id>, f: Id -> bool)
    ensures CountWinners(a + b, f) == CountWinners(a, f) + CountWinners(b, f)
  {
    if |b| == 0 {
      assert a + b == a;
    } else {
      assert (a + b)[..|a + b| - 1] == a + b[..|b| - 1];
      CountWinnersConcat(a, b[..|b| - 1], f);
    }
  }

  lemma {:induction false} PlacesOfOneMore(winners: seq<seq<Id>>, f: Id -> bool)
    requires |winners| > 0
    ensures var n := |winners| - 1;
      |Places(winners, f)| == |Places(winners[..n], f)| + |PlacesOf(winners[n], n, |winners[n]|, f)|
  {
    var n := |winners| - 1;
    var front, last := Places(winners[..n], f), PlacesOf(winners[n], n, |winners[n]|, f);
    forall x | x in Places(winners, f) ensures x in front + last {
      if x.0 < n {
        assert winners[..n][x.0] == winners[x.0];
      }
    }
    assert Places(winners, f) == front + last;
    assert front !! last;
  }

  lemma {:induction false} SamePlaces(winners: seq<seq<Id>>, f: Id -> bool, g: Id -> bool)
    requires forall c :: f(c) == g(c)
    ensures Places(winners, f) == Places(winners, g)
  {
  }

  lemma {:induction false} CountIsPlaces(winners: seq<seq<Id>>, f: Id -> bool)
    ensures CountWinners(Joined(winners), f) == |Places(winners, f)|
  {
    if |winners| == 0 {
      assert Places(winners, f) == {};
    } else {
      var n := |winners| - 1;
      CountIsPlaces(winners[..n], f);
      CountWinnersConcat(Joined(winners[..n]), winners[n], f);
      CountOfOne(winners[n], n, |winners[n]|, f);
      assert winners[n][..|winners[n]|] == winners[n];
      PlacesOfOneMore(winners, f);
    }
  }

  ghost predicate IsPartyTable(winners: seq<Id>, parties: map<Id, Id>, keys: seq<Id>, seats: map<Id, nat>) {
    && Distinct(keys)
    && (forall p :: p in seats <==> p in keys)
    && SumOver(keys, seats) == CountWinners(winners, HasParty(parties))
    && forall p :: At(seats, p) == CountWinners(winners, StandsFor(parties, p))
  }

  /** One seat for the party of each winner; winners without one are passed over. */
  method AddSeats(ghost before: seq<Id>, winners: seq<Id>, parties: map<Id, Id>, keys: seq<Id>, seats: map<Id, nat>)
    returns (keys': seq<Id>, seats': map<Id, nat>)
    requires IsPartyTable(before, parties, keys, seats)
    ensures IsPartyTable(before + winners, parties, keys', seats')
  {
    keys', seats' := keys, seats;
    assert before + winners[..0] == before;
    for i := 0 to |winners|
      invariant IsPartyTable(before + winners[..i], parties, keys', seats')
    {
      assert (before + winners[..i + 1])[..|before| + i] == before + winners[..i];
      if winners[i] in parties {
        keys', seats' := AddOne(keys', seats', parties[winners[i]]);
      }
    }
    assert winners[..|winners|] == winners;
  }

  /** `sum(seat_allocation.values())`. */
  method SumValues(keys: seq<Id>, m: map<Id, nat>) returns (total: nat)
    requires forall k :: k in keys ==> k in m
    ensures total == SumOver(keys, m)
  {
    total := 0;
    for i := 0 to |keys|
      invariant total == SumOver(keys[..i], m)
    {
      assert keys[..i + 1][..i] == keys[..i];
      total := total + m[keys[i]];
    }
    assert keys[..|keys|] == keys;
  }

  function Joined(lists: seq<seq<Id>>): seq<Id> {
    if |lists| == 0 then [] else Joined(lists[..|lists| - 1]) + lists[|lists| - 1]
  }

  function FirstWinner(constituency: Id, winners: seq<Id>, total: nat, parties: map<Id, Id>): ConstituencyResult {
    var winner := if |winners| > 0 then Some(winners[0]) else None;
    ConstituencyResult(constituency, winner, PartyOf(parties, winner), total)
  }

  ghost predicate IsStvResult(r: ConstituencyResult, winners: seq<Id>, events: seq<Event>, election: Id,
                              parties: map<Id, Id>) {
    && AreStvWinners(winners, Accepted(events, election, r.constituency))
    && r.total == |Accepted(events, election, r.constituency)|
    && (r.winner.None? <==> |winners| == 0)
    && (|winners| > 0 ==> r.winner.value == winners[0])
    && NamesItsParty(r, parties)
  }

  ghost predicate AreStvResults(results: seq<ConstituencyResult>, winners: seq<seq<Id>>, ids: seq<Id>,
                                events: seq<Event>, election: Id, parties: map<Id, Id>) {
    && |results| == |winners| == |ids|
    && forall i :: 0 <= i < |ids| ==> IsStvResultOf(ids[i], results[i], winners[i], events, election, parties)
  }

  ghost predicate IsStvResultOf(id: Id, r: ConstituencyResult, winners: seq<Id>, events: seq<Event>, election: Id,
                                parties: map<Id, Id>) {
    r.constituency == id && IsStvResult(r, winners, events, election, parties)
  }

  lemma {:induction false} TotalsGrow(results: seq<ConstituencyResult>, r: ConstituencyResult, winners: seq<seq<Id>>,
                                      won: seq<Id>)
    ensures TotalVotes(results + [r]) == TotalVotes(results) + r.total
    ensures Joined(winners + [won]) == Joined(winners) + won
  {
    assert (results + [r])[..|results|] == results;
    assert (winners + [won])[..|winners|] == winners;
  }

  lemma {:induction false} StvResultsGrow(results: seq<ConstituencyResult>, winners: seq<seq<Id>>, ids: seq<Id>, i: nat,
                                          events: seq<Event>,
                       election: Id, parties: map<Id, Id>, r: ConstituencyResult, won: seq<Id>)
    requires i < |ids| && AreStvResults(results, winners, ids[..i], events, election, parties)
    requires IsStvResultOf(ids[i], r, won, events, election, parties)
    ensures AreStvResults(results + [r], winners + [won], ids[..i + 1], events, election, parties)
  {
    forall j | 0 <= j <= i
      ensures IsStvResultOf(ids[j], (results + [r])[j], (winners + [won])[j], events, election, parties)
    {
      if j < i {
        assert IsStvResultOf(ids[..i][j], results[j], winners[j], events, election, parties);
      }
    }
  }

  lemma {:induction false} SizeOfAccepted(cast: seq<CastBallot>)
    ensures |AllBallots(cast)| == |cast|
  {
    if |cast| > 0 {
      SizeOfAccepted(cast[..|cast| - 1]);
    }
  }

  lemma {:induction false} StvTotals(results: seq<ConstituencyResult>, winners: seq<seq<Id>>, ids: seq<Id>,
                                     events: seq<Event>, election: Id, parties: map<Id, Id>)
    requires AreStvResults(results, winners, ids, events, election, parties)
    ensures TotalVotes(results) == AcceptedOver(events, election, ids)
  {
    forall i | 0 <= i < |ids| ensures results[i].total == |AcceptedBallots(EMPTY, events, election, ids[i])| {
      assert IsStvResultOf(ids[i], results[i], winners[i], events, election, parties);
      SizeOfAccepted(AcceptedBallots(EMPTY, events, election, ids[i]));
    }
    TotalIsAccepted(results, ids, events, election);
  }

  /** One constituency: the winners, and the result that names the first of them. */
  method StvResult(ghost events: seq<Event>, ghost election: Id, constituency: Id, rows: seq<RankedRow>,
                   parties: map<Id, Id>)
    returns (r: ConstituencyResult, winners: seq<Id>)
    requires AreRowsOf(rows, events, election, constituency)
    ensures IsStvResultOf(constituency, r, winners, events, election, parties)
  {
    var total;
    winners, total := StvWinners(events, election, constituency, rows);
    r := FirstWinner(constituency, winners, total, parties);
  }

  method StvResults(ghost events: seq<Event>, ghost election: Id, ids: seq<Id>, rowsOf: Id -> seq<RankedRow>,
                    parties: map<Id, Id>)
    returns (results: seq<ConstituencyResult>, winners: seq<seq<Id>>, keys: seq<Id>, seats: map<Id, nat>,
             totalVotes: nat)
    requires AllRowsOf(rowsOf, ids, events, election)
    ensures AreStvResults(results, winners, ids, events, election, parties)
    ensures IsPartyTable(Joined(winners), parties, keys, seats) && totalVotes == TotalVotes(results)
  {
    results, winners, keys, seats, totalVotes := [], [], [], map[], 0;
    for i := 0 to |ids|
      invariant AreStvResults(results, winners, ids[..i], events, election, parties)
      invariant IsPartyTable(Joined(winners), parties, keys, seats)
      invariant totalVotes == TotalVotes(results)
    {
      var one, won := StvResult(events, election, ids[i], rowsOf(ids[i]), parties);
      keys, seats := AddSeats(Joined(winners), won, parties, keys, seats);
      StvResultsGrow(results, winners, ids, i, events, election, parties, one, won);
      TotalsGrow(results, one, winners, won);
      results, winners, totalVotes := results + [one], winners + [won], totalVotes + one.total;
    }
    assert ids[..|ids|] == ids;
  }

  /** `_results_stv`. The seats that a majority is taken of are those held by parties: seats of
      independents and seats left empty do not count. */
  method ResultsStv(ghost events: seq<Event>, ghost election: Id, ids: seq<Id>, rowsOf: Id -> seq<RankedRow>,
                    parties: map<Id, Id>)
    returns (winners: seq<seq<Id>>, r: ElectionResult)
    requires AllRowsOf(rowsOf, ids, events, election) && AreIdsOf(ids, Run(EMPTY, events).votes, election)
    ensures NoneMissing(ids, events, election)
    ensures AreStvResults(r.constituencies, winners, ids, events, election, parties)
    ensures r.totalVotes == TotalVotes(r.constituencies)
    ensures CountsAllButUnplaced(r, events, election)
    ensures r.totalSeats == |Places(winners, c => c in parties)| && r.threshold == r.totalSeats / 2 + 1
    ensures forall p :: At(r.seats, p) == |Places(winners, c => c in parties && parties[c] == p)|
    ensures forall p :: r.winner == Some(p)
                        <==> |Places(winners, c => c in parties && parties[c] == p)| >= r.threshold
  {
    NoneIsMissing(ids, events, election);
    var results, keys, seats, totalVotes;
    results, winners, keys, seats, totalVotes := StvResults(events, election, ids, rowsOf, parties);
    StvTotals(results, winners, ids, events, election, parties);
    EveryBallotIsSomewhere(events, election, ids);
    CountIsPlaces(winners, HasParty(parties));
    SamePlaces(winners, HasParty(parties), c => c in parties);
    forall p ensures CountWinners(Joined(winners), StandsFor(parties, p))
                     == |Places(winners, c => c in parties && parties[c] == p)|
    {
      CountIsPlaces(winners, StandsFor(parties, p));
      SamePlaces(winners, StandsFor(parties, p), c => c in parties && parties[c] == p);
    }
    var totalSeats := SumValues(keys, seats);
    var winner := MajorityParty(keys, seats, totalSeats);
    r := ElectionResult(totalVotes, totalSeats, totalSeats / 2 + 1, results, seats, winner);
  }
}
