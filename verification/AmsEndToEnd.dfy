/** The Additional Member System from request to result: what `_results_ams` makes of the tallies that
    casting writes. No tally names a list, so no top-up seat is ever filled. */
module AmsEndToEnd {
  import opened Ballots
  import opened Dictionaries
  import opened Records
  import opened VotingRuns
  import opened AdditionalMemberSystem
  import opened ElectionResults
  import opened LocalTotals
  import FptpEndToEnd
  import ListVotes

  /** Every tally read for an election is a candidate's. */
  lemma {:induction false} OnlyCandidates(events: seq<Event>, election: Id, tallies: seq<Tally>)
    requires AreTalliesOf(tallies, events, election)
    ensures forall t :: t in tallies ==> t.key.candidate.Some? && t.key.party.None?
  {
    FptpEndToEnd.RunKeepsCandidates(events);
    FptpEndToEnd.TalliesOfAre(Run(EMPTY, events).tallies, election);
    forall t | t in tallies ensures t.key.candidate.Some? && t.key.party.None? {
      assert t in multiset(tallies);
    }
  }

  /** After any run the result finds no list, whatever ballots named one. */
  lemma {:induction false} NoListIsEverCounted(events: seq<Event>, election: Id, tallies: seq<Tally>, party: Id)
    requires AreTalliesOf(tallies, events, election)
    ensures !HasList(tallies, party) && ElectionResults.ListVotes(tallies, party) == 0
    ensures |ListVotes.ListRows(Run(EMPTY, events).votes, election, party)|
            == ListVotes.BallotsForList(events, election, party)
  {
    OnlyCandidates(events, election, tallies);
    WithoutLists(tallies, party);
    ListVotes.EveryListVoteIsStored(events, election, party);
  }

  lemma {:induction false} WithoutLists(tallies: seq<Tally>, party: Id)
    requires forall t :: t in tallies ==> t.key.party.None?
    ensures ElectionResults.ListVotes(tallies, party) == 0
  {
    if |tallies| > 0 {
      WithoutLists(tallies[..|tallies| - 1], party);
    }
  }

  lemma {:induction false} HereOfLocal(tallies: seq<Tally>, c: Id)
    requires forall t :: t in tallies ==> t.key.candidate.Some?
    ensures Here(Local(tallies), c) == Here(tallies, c)
  {
    if |tallies| > 0 {
      var n := |tallies| - 1;
      HereOfLocal(tallies[..n], c);
      var front := Local(tallies[..n]);
      assert (front + [tallies[n]])[..|front|] == front && front + [] == front;
    }
  }

  lemma {:induction false} WinsFit(results: seq<ConstituencyResult>, parties: map<Id, Id>, party: Id)
    ensures |Wins(results, parties, party)| <= |results|
  {
    if |results| == 0 {
      assert Wins(results, parties, party) == {};
    } else {
      var n := |results| - 1;
      WinsFit(results[..n], parties, party);
      assert Wins(results, parties, party) <= Wins(results[..n], parties, party) + {n};
      AtMostOneMore(Wins(results, parties, party), Wins(results[..n], parties, party), n);
    }
  }

  lemma {:induction false} AtMostOneMore(a: set<nat>, b: set<nat>, n: nat)
    requires a <= b + {n}
    ensures |a| <= |b| + 1
  {
    if |a| > 0 {
      Ballots.SubsetSize(a, b + {n});
    }
  }

  /** Every result among the candidates' tallies is one among all tallies. */
  lemma {:induction false} SameResults(results: seq<ConstituencyResult>, tallies: seq<Tally>, parties: map<Id, Id>)
    requires forall t :: t in tallies ==> t.key.candidate.Some?
    requires ReportsEachOnce(results, Local(tallies))
    requires forall i :: 0 <= i < |results| ==> IsResult(results[i], Local(tallies), parties)
    ensures ReportsEachOnce(results, tallies)
    ensures forall i :: 0 <= i < |results| ==> IsResult(results[i], tallies, parties)
  {
    forall c ensures Here(Local(tallies), c) == Here(tallies, c) {
      HereOfLocal(tallies, c);
    }
  }

  /** Without lists nobody has more than half of the seats, list seats included. */
  lemma {:induction false} NobodyHasAMajority(results: seq<ConstituencyResult>, parties: map<Id, Id>,
                                              seats: map<Id, nat>)
    requires forall p :: At(seats, p) == |Wins(results, parties, p)|
    ensures forall p :: At(seats, p) < |results| + 1
  {
    forall p ensures At(seats, p) < |results| + 1 {
      WinsFit(results, parties, p);
    }
  }

  /** From stored tallies to the result: constituencies are won and counted as the stored rows say, the
      seats for lists all stay empty, and since they count as seats no party ever has a majority. */
  method CountElection(ghost events: seq<Event>, ghost election: Id, tallies: seq<Tally>, parties: map<Id, Id>)
    returns (r: ElectionResult)
    requires AreTalliesOf(tallies, events, election)
    ensures ReportsEachOnce(r.constituencies, tallies)
    ensures r.totalVotes == CountVotes(Run(EMPTY, events).votes, LocalVotes(election))
    ensures forall p :: At(r.seats, p) == |Wins(r.constituencies, parties, p)|
    ensures r.totalSeats == 2 * |r.constituencies| && r.winner == None
    ensures FptpEndToEnd.NeverRanked(EMPTY, events, Records.Election(election)) ==>
      forall i :: 0 <= i < |r.constituencies| ==>
        FptpEndToEnd.WinsByRows(r.constituencies[i], Run(EMPTY, events), election)
  {
    var lists, votes, won, topup;
    r, lists, votes, won, topup := ResultsAms(tallies, parties);
    OnlyCandidates(events, election, tallies);
    SameResults(r.constituencies, tallies, parties);
    NoLists(tallies, lists);
    NobodyHasAMajority(r.constituencies, parties, won);
    TotalsMatchRows(events, election, tallies, parties, r.constituencies);
    if FptpEndToEnd.NeverRanked(EMPTY, events, Records.Election(election)) {
      FptpEndToEnd.UnrankedBallotsAreInOrder(EMPTY, events, Records.Election(election));
      forall i | 0 <= i < |r.constituencies|
        ensures FptpEndToEnd.WinsByRows(r.constituencies[i], Run(EMPTY, events), election)
      {
        FptpEndToEnd.ResultWinsByRows(events, election, tallies, parties, r.constituencies[i]);
      }
    }
  }

  lemma {:induction false} EmptyExactlyWhenNobodyIsIn(lists: seq<Id>)
    ensures lists == [] <==> forall p :: p !in lists
  {
    if lists != [] {
      assert lists[0] in lists;
    }
  }

  lemma {:induction false} NoLists(tallies: seq<Tally>, lists: seq<Id>)
    requires forall t :: t in tallies ==> t.key.party.None?
    requires forall p :: p in lists <==> HasList(tallies, p)
    ensures lists == []
  {
    EmptyExactlyWhenNobodyIsIn(lists);
  }
}
