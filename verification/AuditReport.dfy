/** The integrity checks of backend/app/service/audit_report_service.py. */
module AuditReport {
  import opened Ballots
  import opened Records
  import opened VotingWindow
  import opened VotingTables
  import opened VotingRuns

  /** The times at which votes of an election were cast. */
  function ElectionTimes(votes: seq<Vote>, election: Id): (r: seq<Time>)
    ensures forall v :: v in votes && v.election == election ==> v.castAt in r
    ensures forall t :: t in r ==> exists v :: v in votes && v.election == election && v.castAt == t
  {
    if |votes| == 0 then []
    else
      assert votes == votes[..|votes| - 1] + [votes[|votes| - 1]];
      ElectionTimes(votes[..|votes| - 1], election)
      + if votes[|votes| - 1].election == election then [votes[|votes| - 1].castAt] else []
  }

  function ReferendumTimes(votes: seq<ReferendumVote>, referendum: Id): (r: seq<Time>)
    ensures forall v :: v in votes && v.referendum == referendum ==> v.castAt in r
    ensures forall t :: t in r ==> exists v :: v in votes && v.referendum == referendum && v.castAt == t
  {
    if |votes| == 0 then []
    else
      assert votes == votes[..|votes| - 1] + [votes[|votes| - 1]];
      ReferendumTimes(votes[..|votes| - 1], referendum)
      + if votes[|votes| - 1].referendum == referendum then [votes[|votes| - 1].castAt] else []
  }

  /** `select(min(cast_at), max(cast_at))`. */
  method FirstAndLast(times: seq<Time>) returns (earliest: Option<Time>, latest: Option<Time>)
    ensures earliest.Some? <==> |times| > 0
    ensures latest.Some? <==> |times| > 0
    ensures |times| > 0 ==> earliest.value in times && latest.value in times
    ensures forall t :: t in times ==> earliest.value <= t <= latest.value
  {
    earliest, latest := None, None;
    for i := 0 to |times|
      invariant (earliest.Some? <==> i > 0) && (latest.Some? <==> i > 0)
      invariant i > 0 ==> earliest.value in times && latest.value in times
      invariant forall k :: 0 <= k < i ==> earliest.value <= times[k] <= latest.value
    {
      if earliest.None? || times[i] < earliest.value { earliest := Some(times[i]); }
      if latest.None? || times[i] > latest.value { latest := Some(times[i]); }
    }
  }

  /** `all_votes_within_window`: comparing only the first and the last vote with the window decides
      about all of them. */
  method AllWithinWindow(times: seq<Time>, row: ContestRow) returns (within: bool)
    ensures within <==> forall t :: t in times ==> WithinWindow(t, row.opens, row.closes)
  {
    var earliest, latest := FirstAndLast(times);
    within := true;
    if earliest.Some? && row.opens.Some? {
      if earliest.value < row.opens.value {
        within := false;
      }
    }
    if latest.Some? && row.closes.Some? {
      if latest.value > row.closes.value {
        within := false;
      }
    }
  }

  method AllVotesWithinWindow(votes: seq<Vote>, election: Id, row: ContestRow) returns (within: bool)
    ensures within <==> forall v :: v in votes && v.election == election ==>
      WithinWindow(v.castAt, row.opens, row.closes)
  {
    within := AllWithinWindow(ElectionTimes(votes, election), row);
  }

  method AllReferendumVotesWithinWindow(votes: seq<ReferendumVote>, referendum: Id, row: ContestRow)
    returns (within: bool)
    ensures within <==> forall v :: v in votes && v.referendum == referendum ==>
      WithinWindow(v.castAt, row.opens, row.closes)
  {
    within := AllWithinWindow(ReferendumTimes(votes, referendum), row);
  }

  /** While officials change only statuses, every stored vote is within its window. */
  lemma {:induction false} AuditFindsVotesWithinWindow(start: Time, events: seq<Event>, election: Id, v: Vote)
    requires ClockFrom(start, events) && forall i :: 0 <= i < |events| ==> ScheduleUntouched(events[i])
    requires v in Run(EMPTY, events).votes && v.election == election
    ensures Election(election) in Run(EMPTY, events).contests
    ensures WithinWindow(v.castAt, Run(EMPTY, events).contests[Election(election)].opens,
                         Run(EMPTY, events).contests[Election(election)].closes)
  {
    VotesStayWithinWindow(EMPTY, start, events);
    var db := Run(EMPTY, events);
    var i :| 0 <= i < |db.votes| && db.votes[i] == v;
    assert VoteWindowed(db, Election(db.votes[i].election), db.votes[i].castAt, LastTime(start, events));
  }

  lemma {:induction false} AuditFindsReferendumVotesWithinWindow(start: Time, events: seq<Event>, referendum: Id,
                                                                 v: ReferendumVote)
    requires ClockFrom(start, events) && forall i :: 0 <= i < |events| ==> ScheduleUntouched(events[i])
    requires v in Run(EMPTY, events).referendumVotes && v.referendum == referendum
    ensures Referendum(referendum) in Run(EMPTY, events).contests
    ensures WithinWindow(v.castAt, Run(EMPTY, events).contests[Referendum(referendum)].opens,
                         Run(EMPTY, events).contests[Referendum(referendum)].closes)
  {
    VotesStayWithinWindow(EMPTY, start, events);
    var db := Run(EMPTY, events);
    var i :| 0 <= i < |db.referendumVotes| && db.referendumVotes[i] == v;
    assert VoteWindowed(db, Referendum(db.referendumVotes[i].referendum), db.referendumVotes[i].castAt,
                        LastTime(start, events));
  }

  /** So after any such run the report's flag is true, for elections and referendums alike. */
  method VotingPeriodOfRun(ghost start: Time, ghost events: seq<Event>, db: Tables, contest: Contest)
    returns (within: bool)
    requires db == Run(EMPTY, events) && contest in db.contests
    requires ClockFrom(start, events) && forall i :: 0 <= i < |events| ==> ScheduleUntouched(events[i])
    ensures within
  {
    match contest
    case Election(id) =>
      within := AllVotesWithinWindow(db.votes, id, db.contests[contest]);
      forall v | v in db.votes && v.election == id
        ensures WithinWindow(v.castAt, db.contests[contest].opens, db.contests[contest].closes)
      {
        AuditFindsVotesWithinWindow(start, events, id, v);
      }
    case Referendum(id) =>
      within := AllReferendumVotesWithinWindow(db.referendumVotes, id, db.contests[contest]);
      forall v | v in db.referendumVotes && v.referendum == id
        ensures WithinWindow(v.castAt, db.contests[contest].opens, db.contests[contest].closes)
      {
        AuditFindsReferendumVotesWithinWindow(start, events, id, v);
      }
  }
}
