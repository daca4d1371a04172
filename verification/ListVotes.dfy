/** The votes for party lists: stored as rows, one for each ballot that names the list. */
module ListVotes {
  import opened Ballots
  import opened Records
  import opened RankedRows
  import opened VotingWindow
  import opened VotingTables
  import opened VotingRuns
  import opened LocalTotals
  import CastingRules

  function ForList(election: Id, party: Id): Vote -> bool {
    (v: Vote) => v.election == election && v.party == Some(party)
  }

  /** The stored rows for a list, by their place in the table. */
  function ListRows(votes: seq<Vote>, election: Id, party: Id): set<nat> {
    set i: nat | i < |votes| && votes[i].election == election && votes[i].party == Some(party)
  }

  lemma {:induction false} ListRowsAreCounted(votes: seq<Vote>, election: Id, party: Id)
    ensures CountVotes(votes, ForList(election, party)) == |ListRows(votes, election, party)|
  {
    if |votes| == 0 {
      assert ListRows(votes, election, party) == {};
    } else {
      var n := |votes| - 1;
      ListRowsAreCounted(votes[..n], election, party);
      var before := ListRows(votes[..n], election, party);
      if votes[n].election == election && votes[n].party == Some(party) {
        assert ListRows(votes, election, party) == before + {n};
      } else {
        assert ListRows(votes, election, party) == before;
      }
    }
  }

  /** The request is an accepted ballot of an election under the Additional Member System, for this list. */
  predicate NamesList(db: Tables, e: Event, election: Id, party: Id) {
    && e.request.Cast?
    && e.request.vote.election == election && e.request.vote.party == Some(party)
    && CastVote(db, e.request.vote, e.request.facts, e.now).Done?
    && Election(election) in db.contests && db.contests[Election(election)].system == Ams
  }

  function BallotsForList(events: seq<Event>, election: Id, party: Id): nat {
    if |events| == 0 then 0
    else
      var front, last := events[..|events| - 1], events[|events| - 1];
      BallotsForList(front, election, party) + if NamesList(Run(EMPTY, front), last, election, party) then 1 else 0
  }

  lemma {:induction false} NoListAmong(votes: seq<Vote>, election: Id, party: Id)
    requires forall i :: 0 <= i < |votes| ==> votes[i].party.None?
    ensures CountVotes(votes, ForList(election, party)) == 0
  {
    if |votes| > 0 {
      NoListAmong(votes[..|votes| - 1], election, party);
    }
  }

  lemma {:induction false} PreferencesNameNoList(req: CastRequest, prefs: seq<Preference>, now: Time)
    ensures forall i :: 0 <= i < |RankedVotes(req, prefs, now)| ==> RankedVotes(req, prefs, now)[i].party.None?
  {
    if |prefs| > 0 {
      PreferencesNameNoList(req, prefs[..|prefs| - 1], now);
    }
  }

  lemma {:induction false} AmsBallotNamesItsList(req: CastRequest, now: Time, election: Id, party: Id)
    ensures CountVotes(NewVotes(Ams, req, now), ForList(election, party))
            == if req.election == election && req.party == Some(party) then 1 else 0
  {
    var own := Vote(req.election, req.constituency, req.candidate, None, None, req.text, now);
    var list := Vote(req.election, req.constituency, None, req.party, None,
                     if req.candidate.Some? then req.text + ":list" else req.text, now);
    var a := if req.candidate.Some? then [own] else [];
    var b := if req.party.Some? then [list] else [];
    assert NewVotes(Ams, req, now) == a + b;
    CountConcat(a, b, ForList(election, party));
    CountOne(own, ForList(election, party));
    CountOne(list, ForList(election, party));
  }

  lemma {:induction false} BallotNamesItsList(system: System, req: CastRequest, now: Time, election: Id, party: Id)
    ensures CountVotes(NewVotes(system, req, now), ForList(election, party))
            == if system == Ams && req.election == election && req.party == Some(party) then 1 else 0
  {
    match system
    case Fptp =>
      NoListAmong(NewVotes(system, req, now), election, party);
    case Ams =>
      AmsBallotNamesItsList(req, now, election, party);
    case _ =>
      if req.ranked.Some? {
        PreferencesNameNoList(req, req.ranked.value, now);
      }
      NoListAmong(NewVotes(system, req, now), election, party);
  }

  lemma {:induction false} StepStoresLists(db: Tables, e: Event, election: Id, party: Id)
    ensures CountVotes(Apply(db, e).votes, ForList(election, party))
            == CountVotes(db.votes, ForList(election, party)) + if NamesList(db, e, election, party) then 1 else 0
  {
    if e.request.Cast? && CastVote(db, e.request.vote, e.request.facts, e.now).Done? {
      var req := e.request.vote;
      var row := Synced(db.contests[Election(req.election)], e.now);
      CastingRules.ContestCheck(db.contests[Election(req.election)], e.now);
      CountConcat(db.votes, NewVotes(row.system, req, e.now), ForList(election, party));
      BallotNamesItsList(row.system, req, e.now, election, party);
    }
  }

  /** After any run the rows stored for a list are as many as the ballots accepted for it: none is lost,
      though none is tallied. */
  lemma {:induction false} EveryListVoteIsStored(events: seq<Event>, election: Id, party: Id)
    ensures |ListRows(Run(EMPTY, events).votes, election, party)| == BallotsForList(events, election, party)
  {
    ListRowsAreCounted(Run(EMPTY, events).votes, election, party);
    if |events| > 0 {
      var front := events[..|events| - 1];
      EveryListVoteIsStored(front, election, party);
      ListRowsAreCounted(Run(EMPTY, front).votes, election, party);
      StepStoresLists(Run(EMPTY, front), events[|events| - 1], election, party);
    }
  }
}
