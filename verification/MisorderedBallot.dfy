/** A run in which the tally of an election is wrong: one voter, whose ballot lists the second
    preference before the first. */
module MisorderedBallot {
  import opened Ballots
  import opened Records
  import opened RankedRows
  import opened VotingWindow
  import opened VotingTables
  import opened VotingRuns
  import opened TallyIndex

  const ELECTION: Id := Uuid(0)
  const PLACE: Id := Uuid(1)
  const ANN: Id := Uuid(2)
  const BOB: Id := Uuid(3)
  const VOTER: Id := Uuid(4)
  const TEXT: Generated := "a"

  const ROW := ContestRow(Open, None, None, Av)
  const UNUSED := BallotToken(Election(ELECTION), Some(PLACE), false)

  /** Rank 2 for Ann comes first, then rank 1 for Bob. */
  const REQUEST := CastRequest(VOTER, ELECTION, Some(PLACE), None, None, Some([Preference(2, ANN), Preference(1, BOB)]),
                               TEXT)

  const CREATE := Event(Create(Election(ELECTION), ROW), 0)
  const ISSUE := Event(Issue(Election(ELECTION), Some(PLACE), [TEXT]), 0)
  const CAST := Event(Cast(REQUEST, Facts(true, {ANN, BOB})), 0)

  const CREATED := EMPTY.(contests := map[Election(ELECTION) := ROW])
  const ISSUED := CREATED.(tokens := map[Token(TEXT) := UNUSED])

  function KeyOf(candidate: Id): TallyKey {
    CandidateKey(REQUEST, Some(candidate))
  }

  lemma {:induction false} Index()
    ensures IndexOf(TEXT) == Token(TEXT)
  {
    assert Lower(TEXT) == TEXT;
  }

  lemma {:induction false} Issuing()
    ensures Apply(CREATED, ISSUE) == ISSUED
  {
    Index();
    assert [TEXT][..0] == [] && AllNew(map[], []) && AllNew(map[], [TEXT]);
    assert VotingTables.Issued(map[], [], UNUSED) == map[];
    assert VotingTables.Issued(map[], [TEXT], UNUSED) == map[Token(TEXT) := UNUSED];
  }

  lemma {:induction false} Sorting()
    ensures SortByRank([Preference(2, ANN), Preference(1, BOB)]) == [Preference(1, BOB), Preference(2, ANN)]
  {
    var a, b := Preference(2, ANN), Preference(1, BOB);
    assert [a, b][..1] == [a] && [a][..0] == [];
    assert SortByRank([a]) == [a];
    assert Insert(b, [a]) == [b, a];
  }

  lemma {:induction false} Casting()
    ensures CastVote(ISSUED, REQUEST, CAST.request.facts, 0).Done?
  {
    Index();
    Sorting();
    assert TokenError(ISSUED, VOTER, Election(ELECTION), Some(PLACE), TEXT).None?;
    assert CastError(ISSUED, REQUEST, CAST.request.facts, 0).None?;
    assert Incremented(ISSUED.tallies, KeyFor(Av, REQUEST)).Some?;
  }

  lemma {:induction false} Reached()
    ensures CastVote(ISSUED, REQUEST, CAST.request.facts, 0).Done?
    ensures Run(EMPTY, [CREATE, ISSUE, CAST]) == CastVote(ISSUED, REQUEST, CAST.request.facts, 0).tables
  {
    RunOfThree(EMPTY, CREATE, ISSUE, CAST);
    assert Apply(EMPTY, CREATE) == CREATED;
    Issuing();
    Casting();
  }

  lemma {:induction false} KeysOfRequest(candidate: Id)
    ensures PayloadError(Av, REQUEST).None?
    ensures KeyFor(Av, REQUEST) == Some(KeyOf(candidate)) <==> candidate == ANN
    ensures RowsKey(Av, REQUEST) == Some(KeyOf(candidate)) <==> candidate == BOB
  {
    Sorting();
    assert InRankOrder(REQUEST.ranked.value)[0] == BOB;
  }

  lemma {:induction false} NothingCounted(candidate: Id)
    ensures Tallied(ISSUED.tallies, KeyOf(candidate)) == 0 && Recount(ISSUED, KeyOf(candidate)) == 0
  {
  }

  lemma {:induction false} Counted(candidate: Id)
    ensures CastVote(ISSUED, REQUEST, CAST.request.facts, 0).Done?
    ensures var db := CastVote(ISSUED, REQUEST, CAST.request.facts, 0).tables;
      && Tallied(db.tallies, KeyOf(candidate)) == (if candidate == ANN then 1 else 0)
      && Recount(db, KeyOf(candidate)) == if candidate == BOB then 1 else 0
  {
    Casting();
    KeysOfRequest(candidate);
    NothingCounted(candidate);
    assert Synced(ROW, 0) == ROW;
    BallotCounts(ISSUED, REQUEST, CAST.request.facts, 0, KeyOf(candidate));
  }

  /** The ballot counts for Bob, and the tally gives the vote to Ann. */
  lemma {:induction false} TallyGoesToTheWrongCandidate()
    ensures var db := Run(EMPTY, [CREATE, ISSUE, CAST]);
      && Sound(db) && !Indexed(db, Election(ELECTION))
      && Tallied(db.tallies, KeyOf(ANN)) == 1 && Recount(db, KeyOf(ANN)) == 0
      && Tallied(db.tallies, KeyOf(BOB)) == 0 && Recount(db, KeyOf(BOB)) == 1
  {
    EmptyIsSound();
    RunKeepsSound(EMPTY, [CREATE, ISSUE, CAST]);
    Reached();
    Counted(ANN);
    Counted(BOB);
    assert KeyOf(ANN).contest == Election(ELECTION);
  }
}
