/** From ballots cast to ballots counted: the ranked rows of a constituency, in whatever order the
    query returns them, give back exactly the ballots that were accepted there. */
module RankedElections {
  import opened Ballots
  import opened Records
  import opened RankedRows
  import opened VotingWindow
  import opened VotingTables
  import opened VotingRuns
  import opened Permutations
  import AlternativeVote
  import AlternativeVoteTheorems

  /** The rows that `get_ranked_votes_by_constituency` selects, in the order they were written. */
  function RankedRowsOf(votes: seq<Vote>, election: Id, constituency: Id): seq<RankedRow> {
    if |votes| == 0 then []
    else
      var v := votes[|votes| - 1];
      RankedRowsOf(votes[..|votes| - 1], election, constituency)
      + if v.election == election && v.constituency == Some(constituency) && v.candidate.Some? && v.rank.Some?
        then [RankedRow(v.hash, Preference(v.rank.value, v.candidate.value))] else []
  }

  /** The request is an accepted ranked ballot for this election. */
  predicate AcceptedIn(db: Tables, e: Event, election: Id) {
    && e.request.Cast?
    && e.request.vote.election == election
    && CastVote(db, e.request.vote, e.request.facts, e.now).Done?
    && RankedSystem(db, Election(election), e.now)
  }

  /** And it is for this constituency; a ballot may also name none. */
  predicate AcceptedHere(db: Tables, e: Event, election: Id, constituency: Id) {
    AcceptedIn(db, e, election) && e.request.vote.constituency == Some(constituency)
  }

  predicate RankedSystem(db: Tables, contest: Contest, now: Time) {
    contest in db.contests && (db.contests[contest].system.Stv? || db.contests[contest].system.Av?)
  }

  /** The ranked ballots accepted in a run for one election and constituency, in order. */
  function AcceptedBallots(db: Tables, events: seq<Event>, election: Id, constituency: Id): seq<CastBallot> {
    if |events| == 0 then []
    else
      var front, e := events[..|events| - 1], events[|events| - 1];
      AcceptedBallots(db, front, election, constituency)
      + if AcceptedHere(Run(db, front), e, election, constituency)
        then [CastBallot(Token(e.request.vote.text), PrefsOf(e.request.vote))] else []
  }

  function PrefsOf(req: CastRequest): seq<Preference> {
    if req.ranked.Some? then req.ranked.value else []
  }

  // ---- The rows written are the rows of the accepted ballots ----

  lemma {:induction false} RowsConcat(a: seq<Vote>, b: seq<Vote>, election: Id, constituency: Id)
    ensures RankedRowsOf(a + b, election, constituency)
            == RankedRowsOf(a, election, constituency) + RankedRowsOf(b, election, constituency)
  {
    if |b| == 0 {
      assert a + b == a;
    } else {
      assert (a + b)[..|a + b| - 1] == a + b[..|b| - 1];
      RowsConcat(a, b[..|b| - 1], election, constituency);
    }
  }

  lemma {:induction false} RowsOfOne(v: Vote, election: Id, constituency: Id)
    ensures RankedRowsOf([v], election, constituency)
            == if v.election == election && v.constituency == Some(constituency) && v.candidate.Some? && v.rank.Some?
               then [RankedRow(v.hash, Preference(v.rank.value, v.candidate.value))] else []
  {
    assert [v][..0] == [];
  }

  lemma {:induction false} RowsOfRanked(req: CastRequest, prefs: seq<Preference>, now: Time, election: Id,
                                        constituency: Id)
    ensures RankedRowsOf(RankedVotes(req, prefs, now), election, constituency)
            == if req.election == election && req.constituency == Some(constituency)
               then RowsFor(Token(req.text), prefs) else []
  {
    if |prefs| > 0 {
      var n := |prefs| - 1;
      var row := Vote(req.election, req.constituency, Some(prefs[n].candidate), None, Some(prefs[n].rank),
                      Marked(req.text, prefs[n].rank), now);
      RowsOfRanked(req, prefs[..n], now, election, constituency);
      RowsConcat(RankedVotes(req, prefs[..n], now), [row], election, constituency);
      RowsOfOne(row, election, constituency);
    }
  }

  lemma {:induction false} RowsOfUnranked(votes: seq<Vote>, election: Id, constituency: Id)
    requires forall v :: v in votes ==> v.rank.None?
    ensures RankedRowsOf(votes, election, constituency) == []
  {
    if |votes| > 0 {
      RowsOfUnranked(votes[..|votes| - 1], election, constituency);
    }
  }

  lemma {:induction false} RowsOfBallot(system: System, req: CastRequest, now: Time, election: Id, constituency: Id)
    ensures RankedRowsOf(NewVotes(system, req, now), election, constituency)
            == if (system.Stv? || system.Av?) && req.election == election && req.constituency == Some(constituency)
               then RowsFor(Token(req.text), PrefsOf(req)) else []
  {
    if system.Stv? || system.Av? {
      RowsOfRanked(req, PrefsOf(req), now, election, constituency);
    } else {
      RowsOfUnranked(NewVotes(system, req, now), election, constituency);
    }
  }

  lemma {:induction false} AllRowsConcatOne(cast: seq<CastBallot>, c: CastBallot)
    ensures AllRows(cast + [c]) == AllRows(cast) + RowsOf(c)
  {
    assert (cast + [c])[..|cast|] == cast;
  }

  lemma {:induction false} AcceptedAddsItsRows(before: Tables, e: Event)
    requires e.request.Cast? && CastVote(before, e.request.vote, e.request.facts, e.now).Done?
    ensures Election(e.request.vote.election) in before.contests
    ensures Apply(before, e).votes
            == before.votes + NewVotes(before.contests[Election(e.request.vote.election)].system, e.request.vote, e.now)
  {
  }

  lemma {:induction false} OthersAddNone(before: Tables, e: Event)
    requires !(e.request.Cast? && CastVote(before, e.request.vote, e.request.facts, e.now).Done?)
    ensures Apply(before, e).votes == before.votes
  {
  }

  lemma {:induction false} RowsOfOneMoreEvent(before: Tables, e: Event, election: Id, constituency: Id)
    ensures RankedRowsOf(Apply(before, e).votes, election, constituency)
            == RankedRowsOf(before.votes, election, constituency)
               + if AcceptedHere(before, e, election, constituency)
                 then RowsFor(Token(e.request.vote.text), PrefsOf(e.request.vote)) else []
  {
    if e.request.Cast? && CastVote(before, e.request.vote, e.request.facts, e.now).Done? {
      var req := e.request.vote;
      AcceptedAddsItsRows(before, e);
      var system := before.contests[Election(req.election)].system;
      RowsConcat(before.votes, NewVotes(system, req, e.now), election, constituency);
      RowsOfBallot(system, req, e.now, election, constituency);
    } else {
      OthersAddNone(before, e);
    }
  }

  lemma {:induction false} RowsAreTheAcceptedBallots(events: seq<Event>, election: Id, constituency: Id)
    ensures RankedRowsOf(Run(EMPTY, events).votes, election, constituency)
            == AllRows(AcceptedBallots(EMPTY, events, election, constituency))
  {
    if |events| > 0 {
      var front, e := events[..|events| - 1], events[|events| - 1];
      var before, cast := Run(EMPTY, front), AcceptedBallots(EMPTY, front, election, constituency);
      RowsAreTheAcceptedBallots(front, election, constituency);
      RowsOfOneMoreEvent(before, e, election, constituency);
      if AcceptedHere(before, e, election, constituency) {
        AllRowsConcatOne(cast, CastBallot(Token(e.request.vote.text), PrefsOf(e.request.vote)));
      } else {
        assert AcceptedBallots(EMPTY, events, election, constituency) == cast;
      }
    }
  }

  // ---- The accepted ballots have distinct, clean tokens and valid ranks ----

  lemma {:induction false} TokenTextIsClean(text: string)
    requires UuidText(Lower(text))
    ensures Clean(text)
  {
    forall i | 0 <= i < |text| ensures !(MARK <= text[i..]) {
      assert Lower(text)[i] == LowerChar(text[i]);
      assert text[i..][0] == text[i];
    }
  }

  /** Every ballot counted here has used up its own token. */
  ghost predicate Spent(db: Tables, cast: seq<CastBallot>) {
    forall i :: 0 <= i < |cast| ==> SpentToken(db, cast[i])
  }

  ghost predicate SpentToken(db: Tables, c: CastBallot) {
    IndexOf(c.token.text) in db.tokens && db.tokens[IndexOf(c.token.text)].used
  }

  lemma {:induction false} OneMoreBallot(db: Tables, after: Tables, cast: seq<CastBallot>, c: CastBallot)
    requires WellCast(cast) && Spent(db, cast) && TokensLast(db.tokens, after.tokens)
    requires IndexOf(c.token.text) in db.tokens && !db.tokens[IndexOf(c.token.text)].used && SpentToken(after, c)
    requires UuidText(Lower(c.token.text)) && ConsecutiveFromOne(c.prefs)
    ensures WellCast(cast + [c]) && Spent(after, cast + [c])
  {
    TokenTextIsClean(c.token.text);
    var tokens := Tokens(cast + [c]);
    forall i, j | 0 <= i < j < |tokens| ensures tokens[i] != tokens[j] {
      assert Tokens(cast)[i] == tokens[i];
      assert SpentToken(db, cast[i]);
      if j < |cast| {
        assert Tokens(cast)[j] == tokens[j];
      }
    }
    forall i | 0 <= i < |cast + [c]| ensures SpentToken(after, (cast + [c])[i]) {
      if i < |cast| {
        assert SpentToken(db, cast[i]);
      }
    }
  }

  lemma {:induction false} StillSpent(db: Tables, after: Tables, cast: seq<CastBallot>)
    requires Spent(db, cast) && TokensLast(db.tokens, after.tokens)
    ensures Spent(after, cast)
  {
    forall i | 0 <= i < |cast| ensures SpentToken(after, cast[i]) {
      assert SpentToken(db, cast[i]);
    }
  }

  lemma {:induction false} AcceptedOnItsOwnToken(before: Tables, e: Event, election: Id, constituency: Id)
    requires GeneratedTokens(before.tokens) && AcceptedHere(before, e, election, constituency)
    ensures var c := CastBallot(Token(e.request.vote.text), PrefsOf(e.request.vote));
      && IndexOf(c.token.text) in before.tokens && !before.tokens[IndexOf(c.token.text)].used
      && SpentToken(Apply(before, e), c)
      && UuidText(Lower(c.token.text)) && ConsecutiveFromOne(c.prefs)
  {
  }

  lemma {:induction false} AcceptedBallotsAreWellCast(events: seq<Event>, election: Id, constituency: Id)
    ensures WellCast(AcceptedBallots(EMPTY, events, election, constituency))
    ensures Spent(Run(EMPTY, events), AcceptedBallots(EMPTY, events, election, constituency))
  {
    if |events| > 0 {
      var front, e := events[..|events| - 1], events[|events| - 1];
      var before, cast := Run(EMPTY, front), AcceptedBallots(EMPTY, front, election, constituency);
      AcceptedBallotsAreWellCast(front, election, constituency);
      StepKeepsTokens(before, e);
      if AcceptedHere(before, e, election, constituency) {
        EmptyIsSound();
        RunKeepsSound(EMPTY, front);
        AcceptedOnItsOwnToken(before, e, election, constituency);
        OneMoreBallot(before, Apply(before, e), cast, CastBallot(Token(e.request.vote.text), PrefsOf(e.request.vote)));
      } else {
        StillSpent(before, Apply(before, e), cast);
      }
    }
  }

  /** Whatever run of requests, and whatever order the rows of a constituency are read in, the count
      starts from exactly the ranked ballots accepted there, each in its voter's order. */
  lemma {:induction false} BallotsCountedAreBallotsCast(events: seq<Event>, election: Id, constituency: Id,
                                                        rows: seq<RankedRow>)
    requires multiset(rows) == multiset(RankedRowsOf(Run(EMPTY, events).votes, election, constituency))
    ensures multiset(BallotsOf(rows, Bases(rows)))
            == multiset(AllBallots(AcceptedBallots(EMPTY, events, election, constituency)))
  {
    RowsAreTheAcceptedBallots(events, election, constituency);
    AcceptedBallotsAreWellCast(events, election, constituency);
    RowsRegroupIntoBallots(AcceptedBallots(EMPTY, events, election, constituency), rows);
  }

  // ---- From voters to winner ----

  /** Whoever more than half of the accepted ballots put first, as a set, holds the winner. */
  ghost predicate MajoritiesDecide(cast: seq<CastBallot>, winner: Id) {
    forall S :: AlternativeVoteTheorems.MutualMajority(AllBallots(cast), S) ==> winner in S
  }

  /** End to end: the winner is one that a count of the accepted ballots can elect; so if more than
      half of them rank all of `S` before anybody else, it is a member of `S`. */
  method CountConstituency(ghost events: seq<Event>, ghost election: Id, ghost constituency: Id, rows: seq<RankedRow>)
    returns (winner: Option<Id>, ghost elim: seq<Id>)
    requires multiset(rows) == multiset(RankedRowsOf(Run(EMPTY, events).votes, election, constituency))
    ensures winner.None? <==> |AcceptedBallots(EMPTY, events, election, constituency)| == 0
    ensures winner.Some? ==>
      AlternativeVote.Elects(AllBallots(AcceptedBallots(EMPTY, events, election, constituency)), elim, winner.value)
    ensures winner.Some? ==> MajoritiesDecide(AcceptedBallots(EMPTY, events, election, constituency), winner.value)
  {
    ghost var accepted := AcceptedBallots(EMPTY, events, election, constituency);
    var ballots := VotesToBallots(rows);
    BallotsCountedAreBallotsCast(events, election, constituency, rows);
    AcceptedBallotsAreWellCast(events, election, constituency);
    NoBlankBallots(accepted, ballots);
    winner, elim := AlternativeVote.AvCount(ballots);
    if winner.Some? {
      PermutationsCountAlike(ballots, AllBallots(accepted));
      AvIgnoresBallotOrder(ballots, AllBallots(accepted), elim, winner.value);
      forall S | AlternativeVoteTheorems.MutualMajority(AllBallots(accepted), S) ensures winner.value in S {
        AlternativeVoteTheorems.MutualMajorityWins(AllBallots(accepted), S, elim, winner.value);
      }
    }
  }

  lemma {:induction false} BallotsAreMarked(cast: seq<CastBallot>)
    requires forall c :: c in cast ==> ConsecutiveFromOne(c.prefs)
    ensures |AllBallots(cast)| == |cast| && forall b :: b in AllBallots(cast) ==> |b| > 0
  {
    if |cast| > 0 {
      BallotsAreMarked(cast[..|cast| - 1]);
      var prefs := cast[|cast| - 1].prefs;
      assert |InRankOrder(prefs)| == |SortByRank(prefs)| == |prefs|;
    }
  }

  lemma {:induction false} NoBlankBallots(cast: seq<CastBallot>, ballots: seq<Ballot>)
    requires WellCast(cast) && multiset(ballots) == multiset(AllBallots(cast))
    ensures (forall b :: b in ballots ==> b == []) <==> |cast| == 0
  {
    BallotsAreMarked(cast);
    SameElements(ballots, AllBallots(cast));
    if |cast| > 0 {
      var b := AllBallots(cast)[0];
      assert b in ballots;
    }
  }

  lemma {:induction false} SameElements(bs: seq<Ballot>, cs: seq<Ballot>)
    requires multiset(bs) == multiset(cs)
    ensures forall b :: b in bs <==> b in cs
  {
    forall b ensures b in bs <==> b in cs {
      assert b in multiset(bs) <==> b in multiset(cs);
    }
  }
}
