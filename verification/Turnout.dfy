/** Conservation across the tables: every token spent is one ballot in the tallies, unless the ballot
    named a party list only. */
module Turnout {
  import opened Ballots
  import opened Records
  import opened VotingWindow
  import opened VotingTables
  import opened VotingRuns

  /** All that is tallied for a contest. */
  function TotalTally(tallies: seq<Tally>, contest: Contest): nat {
    if |tallies| == 0 then 0
    else
      var last := tallies[|tallies| - 1];
      TotalTally(tallies[..|tallies| - 1], contest) + if last.key.contest == contest then last.count else 0
  }

  lemma {:induction false} TotalBumped(tallies: seq<Tally>, key: TallyKey, contest: Contest)
    ensures TotalTally(Bumped(tallies, key), contest)
            == TotalTally(tallies, contest) + if key.contest == contest then TalliesFor(tallies, key) else 0
  {
    if |tallies| > 0 {
      var n := |tallies| - 1;
      TotalBumped(tallies[..n], key, contest);
      assert Bumped(tallies, key)[..|Bumped(tallies, key)| - 1] == Bumped(tallies[..n], key);
    }
  }

  lemma {:induction false} TotalIncremented(tallies: seq<Tally>, key: Option<TallyKey>, contest: Contest)
    requires Incremented(tallies, key).Some?
    ensures TotalTally(Incremented(tallies, key).value, contest)
            == TotalTally(tallies, contest) + if key.Some? && key.value.contest == contest then 1 else 0
  {
    if key.Some? {
      if TalliesFor(tallies, key.value) == 0 {
        assert (tallies + [Tally(key.value, 1)])[..|tallies|] == tallies;
      } else {
        TotalBumped(tallies, key.value, contest);
      }
    }
  }

  /** The request is an accepted ballot for the contest that names a party list and no candidate. */
  predicate ListOnly(db: Tables, e: Event, contest: Contest) {
    && e.request.Cast?
    && Election(e.request.vote.election) == contest
    && CastVote(db, e.request.vote, e.request.facts, e.now).Done?
    && KeyFor(Synced(db.contests[contest], e.now).system, e.request.vote).None?
  }

  function ListOnlyBallots(db: Tables, events: seq<Event>, contest: Contest): nat {
    if |events| == 0 then 0
    else
      var front, last := events[..|events| - 1], events[|events| - 1];
      ListOnlyBallots(db, front, contest) + if ListOnly(Run(db, front), last, contest) then 1 else 0
  }

  lemma {:induction false} LedgerCountAppend(ledger: seq<LedgerEntry>, entry: LedgerEntry, contest: Contest)
    ensures LedgerCount(ledger + [entry], contest) == LedgerCount(ledger, contest)
            + if entry.contest == contest then 1 else 0
  {
    assert (ledger + [entry])[..|ledger|] == ledger;
  }

  /** An accepted ballot without a candidate to tally is an AMS ballot for a list. */
  lemma {:induction false} OnlyListsAreNotTallied(db: Tables, e: Event, contest: Contest)
    requires ListOnly(db, e, contest)
    ensures var vote := e.request.vote;
      Synced(db.contests[contest], e.now).system.Ams? && vote.candidate.None? && vote.party.Some?
  {
    var system := Synced(db.contests[contest], e.now).system;
    assert PayloadError(system, e.request.vote).None?;
  }

  ghost predicate Conserves(db: Tables, after: Tables, contest: Contest, listOnly: bool) {
    TotalTally(after.tallies, contest) - TotalTally(db.tallies, contest) + (if listOnly then 1 else 0)
    == LedgerCount(after.ledger, contest) - LedgerCount(db.ledger, contest)
  }

  lemma {:induction false} CastConserves(db: Tables, e: Event, contest: Contest)
    requires e.request.Cast?
    ensures Conserves(db, Apply(db, e), contest, ListOnly(db, e, contest))
  {
    var req := e.request.vote;
    if CastVote(db, req, e.request.facts, e.now).Done? {
      var key := KeyFor(Synced(db.contests[Election(req.election)], e.now).system, req);
      TotalIncremented(db.tallies, key, contest);
      LedgerCountAppend(db.ledger, LedgerEntry(req.voter, Election(req.election)), contest);
    }
  }

  lemma {:induction false} CastReferendumConserves(db: Tables, e: Event, contest: Contest)
    requires e.request.CastReferendum?
    ensures Conserves(db, Apply(db, e), contest, false)
  {
    var req := e.request.choice;
    if CastReferendumVote(db, req, e.request.voterFacts, e.now).Done? {
      TotalIncremented(db.tallies, Some(ReferendumKey(req)), contest);
      LedgerCountAppend(db.ledger, LedgerEntry(req.voter, Referendum(req.referendum)), contest);
    }
  }

  lemma {:induction false} StepConserves(db: Tables, e: Event, contest: Contest)
    ensures Conserves(db, Apply(db, e), contest, ListOnly(db, e, contest))
  {
    if e.request.Cast? {
      CastConserves(db, e, contest);
    } else if e.request.CastReferendum? {
      CastReferendumConserves(db, e, contest);
    }
  }

  lemma {:induction false} RunConserves(events: seq<Event>, contest: Contest)
    ensures TotalTally(Run(EMPTY, events).tallies, contest) + ListOnlyBallots(EMPTY, events, contest)
            == LedgerCount(Run(EMPTY, events).ledger, contest)
  {
    if |events| > 0 {
      RunConserves(events[..|events| - 1], contest);
      StepConserves(Run(EMPTY, events[..|events| - 1]), events[|events| - 1], contest);
    }
  }

  /** After any run, the votes tallied for a contest and its list-only ballots together are its used
      tokens. */
  lemma {:induction false} EverySpentTokenIsTalliedOnce(events: seq<Event>, contest: Contest)
    ensures TotalTally(Run(EMPTY, events).tallies, contest) + ListOnlyBallots(EMPTY, events, contest)
            == |UsedTokens(Run(EMPTY, events).tokens, contest)|
  {
    EmptyIsSound();
    RunKeepsSound(EMPTY, events);
    RunConserves(events, contest);
  }
}
