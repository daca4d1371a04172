/** First past the post from request to winner: the winner computed from the incremental tallies is
    the winner by the vote rows themselves. */
module FptpEndToEnd {
  import opened Ballots
  import opened Records
  import opened VotingTables
  import opened VotingRuns
  import opened TallyIndex
  import opened ElectionResults
  import opened LocalTotals
  import ResultCache

  lemma {:induction false} TalliesOfAre(tallies: seq<Tally>, election: Id)
    ensures forall t :: t in ResultCache.TalliesOf(tallies, election)
                        <==> t in tallies && t.key.contest == Election(election)
  {
    if |tallies| > 0 {
      TalliesOfAre(tallies[..|tallies| - 1], election);
      assert tallies == tallies[..|tallies| - 1] + [tallies[|tallies| - 1]];
    }
  }

  function LocalKey(election: Id, constituency: Id, candidate: Id): TallyKey {
    TallyKey(Election(election), Some(constituency), Some(candidate), None, None)
  }

  /** Election tallies are only ever written for candidates. */
  ghost predicate CandidateTallies(tallies: seq<Tally>) {
    forall t :: t in tallies && t.key.contest.Election? ==>
      t.key.candidate.Some? && t.key.party.None? && t.key.choice.None?
  }

  lemma {:induction false} BumpedRows(tallies: seq<Tally>, key: TallyKey)
    ensures forall t :: t in Bumped(tallies, key) ==> t.key == key || t in tallies
  {
    if |tallies| > 0 {
      BumpedRows(tallies[..|tallies| - 1], key);
    }
  }

  lemma {:induction false} IncrementKeepsCandidates(tallies: seq<Tally>, key: Option<TallyKey>)
    requires CandidateTallies(tallies) && Incremented(tallies, key).Some?
    requires key.Some? && key.value.contest.Election? ==>
      key.value.candidate.Some? && key.value.party.None? && key.value.choice.None?
    ensures CandidateTallies(Incremented(tallies, key).value)
  {
    if key.Some? {
      BumpedRows(tallies, key.value);
    }
  }

  lemma {:induction false} RunKeepsCandidates(events: seq<Event>)
    ensures CandidateTallies(Run(EMPTY, events).tallies)
  {
    if |events| > 0 {
      var front, e := events[..|events| - 1], events[|events| - 1];
      RunKeepsCandidates(front);
      StepKeepsCandidates(Run(EMPTY, front), e);
    }
  }

  lemma {:induction false} CastKeepsCandidates(db: Tables, req: CastRequest, facts: Facts, now: Time)
    requires CandidateTallies(db.tallies) && CastVote(db, req, facts, now).Done?
    ensures CandidateTallies(CastVote(db, req, facts, now).tables.tallies)
  {
    var system := VotingRuns.VotingWindow.Synced(db.contests[Election(req.election)], now).system;
    IncrementKeepsCandidates(db.tallies, KeyFor(system, req));
  }

  lemma {:induction false} StepKeepsCandidates(db: Tables, e: Event)
    requires CandidateTallies(db.tallies)
    ensures CandidateTallies(Apply(db, e).tallies)
  {
    match e.request
    case Cast(req, facts) =>
      if CastVote(db, req, facts, e.now).Done? {
        CastKeepsCandidates(db, req, facts, e.now);
      }
    case CastReferendum(req, facts) =>
      if CastReferendumVote(db, req, facts, e.now).Done? {
        IncrementKeepsCandidates(db.tallies, Some(ReferendumKey(req)));
      }
    case _ =>
  }

  /** After any run, in the order the tallies happen to be read, each constituency's result names a
      candidate for whom no fewer vote rows are stored than for anybody else there. */
  lemma {:induction false} WinnerHasMostVotes(events: seq<Event>, election: Id, tallies: seq<Tally>,
                                              parties: map<Id, Id>,
                           r: ConstituencyResult, rival: Id)
    requires AllListedInOrder(EMPTY, events, Election(election))
    requires multiset(tallies) == multiset(ResultCache.TalliesOf(Run(EMPTY, events).tallies, election))
    requires IsResult(r, tallies, parties)
    ensures r.winner.Some?
    ensures RecountVotes(Run(EMPTY, events).votes, LocalKey(election, r.constituency, rival))
            <= RecountVotes(Run(EMPTY, events).votes, LocalKey(election, r.constituency, r.winner.value))
  {
    var db := Run(EMPTY, events);
    EmptyIsSound();
    RunKeepsSound(EMPTY, events);
    EmptyIsIndexed(Election(election));
    TallyIsRecount(EMPTY, events, Election(election));
    RunKeepsCandidates(events);
    TalliesOfAre(db.tallies, election);
    forall t ensures t in tallies <==> t in db.tallies && t.key.contest == Election(election) {
      assert t in multiset(tallies) <==> t in multiset(ResultCache.TalliesOf(db.tallies, election));
    }
    HereIs(tallies, r.constituency);
    var best :| best in Here(tallies, r.constituency) && r.winner == best.key.candidate
                && forall t :: t in Here(tallies, r.constituency) ==> t.count <= best.count;
    assert best.key == LocalKey(election, r.constituency, r.winner.value);
    RowHoldsTally(db.tallies, best);
    NoReferendumRows(db.referendumVotes, best.key);
    var key := LocalKey(election, r.constituency, rival);
    NoReferendumRows(db.referendumVotes, key);
    NoRowNoTally(db.tallies, key);
    if TalliesFor(db.tallies, key) > 0 {
      var t :| t in db.tallies && t.key == key;
      RowHoldsTally(db.tallies, t);
      assert t in Here(tallies, r.constituency);
    }
  }

  lemma {:induction false} NoReferendumRows(votes: seq<ReferendumVote>, key: TallyKey)
    requires key.contest.Election?
    ensures RecountReferendum(votes, key) == 0
  {
    if |votes| > 0 {
      NoReferendumRows(votes[..|votes| - 1], key);
    }
  }

  /** The contest is not run by ranked ballots when any of the requests arrives. */
  ghost predicate NeverRanked(db: Tables, events: seq<Event>, contest: Contest) {
    |events| == 0 ||
    var front := events[..|events| - 1];
    NeverRanked(db, front, contest)
    && (contest in Run(db, front).contests ==>
          !Run(db, front).contests[contest].system.Stv? && !Run(db, front).contests[contest].system.Av?)
  }

  /** Where ballots are not ranked there is no order to list preferences in. */
  lemma {:induction false} UnrankedBallotsAreInOrder(db: Tables, events: seq<Event>, contest: Contest)
    requires NeverRanked(db, events, contest)
    ensures AllListedInOrder(db, events, contest)
  {
    if |events| > 0 {
      UnrankedBallotsAreInOrder(db, events[..|events| - 1], contest);
    }
  }

  /** Nobody has more stored votes in the constituency than the winner. */
  ghost predicate WinsByRows(r: ConstituencyResult, db: Tables, election: Id) {
    r.winner.Some? && forall rival ::
      RecountVotes(db.votes, LocalKey(election, r.constituency, rival))
      <= RecountVotes(db.votes, LocalKey(election, r.constituency, r.winner.value))
  }

  lemma {:induction false} ResultWinsByRows(events: seq<Event>, election: Id, tallies: seq<Tally>,
                                            parties: map<Id, Id>, r: ConstituencyResult)
    requires AllListedInOrder(EMPTY, events, Election(election)) && AreTalliesOf(tallies, events, election)
    requires IsResult(r, tallies, parties)
    ensures WinsByRows(r, Run(EMPTY, events), election)
  {
    WinnerHasMostVotes(events, election, tallies, parties, r, Uuid(0));
    forall rival
      ensures RecountVotes(Run(EMPTY, events).votes, LocalKey(election, r.constituency, rival))
              <= RecountVotes(Run(EMPTY, events).votes, LocalKey(election, r.constituency, r.winner.value))
    {
      WinnerHasMostVotes(events, election, tallies, parties, r, rival);
    }
  }

  /** From stored tallies to the result of an election that is never ranked: each constituency's
      winner and total, and the election's total, are those of the stored vote rows. */
  method CountElection(ghost events: seq<Event>, ghost election: Id, tallies: seq<Tally>, parties: map<Id, Id>)
    returns (r: ElectionResult)
    requires AreTalliesOf(tallies, events, election) && NeverRanked(EMPTY, events, Election(election))
    ensures ReportsEachOnce(r.constituencies, tallies)
    ensures forall i :: 0 <= i < |r.constituencies| ==> WinsByRows(r.constituencies[i], Run(EMPTY, events), election)
    ensures forall i :: 0 <= i < |r.constituencies| ==>
      r.constituencies[i].total == CountVotes(Run(EMPTY, events).votes,
                                              VotesIn(election, {r.constituencies[i].constituency}))
    ensures r.totalVotes == CountVotes(Run(EMPTY, events).votes, LocalVotes(election))
    ensures forall p :: r.winner == Some(p) <==>
      |Wins(r.constituencies, parties, p)| >= |r.constituencies| / 2 + 1
  {
    r := ResultsFptp(tallies, parties);
    TotalsMatchRows(events, election, tallies, parties, r.constituencies);
    UnrankedBallotsAreInOrder(EMPTY, events, Election(election));
    forall i | 0 <= i < |r.constituencies| ensures WinsByRows(r.constituencies[i], Run(EMPTY, events), election) {
      ResultWinsByRows(events, election, tallies, parties, r.constituencies[i]);
    }
  }
}
