/** What moving the opening or closing time of a contest does to the votes already cast. */
module Rescheduling {
  import opened Ballots
  import opened Records
  import opened VotingWindow
  import opened VotingTables
  import opened VotingRuns
  import opened AuditReport

  /** The times at which votes of the contest were cast. */
  function CastTimes(db: Tables, contest: Contest): seq<Time> {
    match contest
    case Election(id) => ElectionTimes(db.votes, id)
    case Referendum(id) => ReferendumTimes(db.referendumVotes, id)
  }

  function Earliest(times: seq<Time>): (r: Time)
    requires |times| > 0
    ensures r in times && forall t :: t in times ==> r <= t
  {
    if |times| == 1 then times[0]
    else
      var r := Earliest(times[1..]);
      assert times == [times[0]] + times[1..];
      if times[0] < r then times[0] else r
  }

  function Latest(times: seq<Time>): (r: Time)
    requires |times| > 0
    ensures r in times && forall t :: t in times ==> t <= r
  {
    if |times| == 1 then times[0]
    else
      var r := Latest(times[1..]);
      assert times == [times[0]] + times[1..];
      if times[0] > r then times[0] else r
  }

  /** The window takes in the first and the last vote: two comparisons, made before the change. */
  predicate Contains(row: ContestRow, times: seq<Time>) {
    |times| == 0
    || ((row.opens.Some? ==> row.opens.value <= Earliest(times))
      && (row.closes.Some? ==> Latest(times) <= row.closes.value))
  }

  lemma {:induction false} ContainsMeansAll(row: ContestRow, times: seq<Time>)
    ensures Contains(row, times) <==> forall t :: t in times ==> WithinWindow(t, row.opens, row.closes)
  {
  }

  /** The change, if it is accepted, leaves the votes of its contest inside the window. */
  predicate SafeChange(db: Tables, e: Event) {
    e.request.Change? && e.request.changed in db.contests
      && UpdateRow(db.contests[e.request.changed], e.request.dto, e.now).Accepted?
    ==> Contains(UpdateRow(db.contests[e.request.changed], e.request.dto, e.now).row, CastTimes(db, e.request.changed))
  }

  ghost predicate InWindow(db: Tables, contest: Contest) {
    contest in db.contests
    && forall t :: t in CastTimes(db, contest) ==>
      WithinWindow(t, db.contests[contest].opens, db.contests[contest].closes)
  }

  lemma {:induction false} WindowedMeansInWindow(db: Tables, t: Time, contest: Contest)
    requires Windowed(db, t) && contest in db.contests
    ensures InWindow(db, contest)
  {
    forall at | at in CastTimes(db, contest)
      ensures WithinWindow(at, db.contests[contest].opens, db.contests[contest].closes)
    {
      match contest
      case Election(id) =>
        var v :| v in db.votes && v.election == id && v.castAt == at;
        var i :| 0 <= i < |db.votes| && db.votes[i] == v;
        assert VoteWindowed(db, Election(db.votes[i].election), db.votes[i].castAt, t);
      case Referendum(id) =>
        var v :| v in db.referendumVotes && v.referendum == id && v.castAt == at;
        var i :| 0 <= i < |db.referendumVotes| && db.referendumVotes[i] == v;
        assert VoteWindowed(db, Referendum(db.referendumVotes[i].referendum), db.referendumVotes[i].castAt, t);
    }
  }

  /** A vote that was in its window still is after a change, unless it is a vote of the changed contest
      that the new window leaves out. */
  lemma {:induction false} VoteAfterChange(db: Tables, e: Event, contest: Contest, castAt: Time, t: Time)
    requires e.request.Change? && t <= e.now && VoteWindowed(db, contest, castAt, t)
    requires castAt in CastTimes(db, contest) && SafeChange(db, e)
    ensures VoteWindowed(Apply(db, e), contest, castAt, e.now)
  {
    if e.request.changed == contest && UpdateRow(db.contests[contest], e.request.dto, e.now).Accepted? {
      ContainsMeansAll(UpdateRow(db.contests[contest], e.request.dto, e.now).row, CastTimes(db, contest));
    }
  }

  lemma {:induction false} SafeChangeKeepsWindowed(db: Tables, e: Event, t: Time)
    requires e.request.Change? && t <= e.now && Windowed(db, t) && SafeChange(db, e)
    ensures Windowed(Apply(db, e), e.now)
  {
    var after := Apply(db, e);
    assert after.votes == db.votes && after.referendumVotes == db.referendumVotes;
    forall i | 0 <= i < |db.votes| ensures VoteWindowed(after, Election(db.votes[i].election), db.votes[i].castAt,
                                                        e.now)
    {
      assert VoteWindowed(db, Election(db.votes[i].election), db.votes[i].castAt, t);
      assert db.votes[i] in db.votes;
      VoteAfterChange(db, e, Election(db.votes[i].election), db.votes[i].castAt, t);
    }
    forall i | 0 <= i < |db.referendumVotes|
      ensures VoteWindowed(after, Referendum(db.referendumVotes[i].referendum), db.referendumVotes[i].castAt, e.now)
    {
      assert VoteWindowed(db, Referendum(db.referendumVotes[i].referendum), db.referendumVotes[i].castAt, t);
      assert db.referendumVotes[i] in db.referendumVotes;
      VoteAfterChange(db, e, Referendum(db.referendumVotes[i].referendum), db.referendumVotes[i].castAt, t);
    }
  }

  /** An official's change keeps every stored vote inside its window exactly when the new window takes in
      the first and the last vote of the contest. */
  lemma {:induction false} ChangeKeepsWindowsExactlyWhenSafe(db: Tables, e: Event, t: Time)
    requires e.request.Change? && t <= e.now && Windowed(db, t)
    ensures Windowed(Apply(db, e), e.now) <==> SafeChange(db, e)
  {
    if SafeChange(db, e) {
      SafeChangeKeepsWindowed(db, e, t);
    } else if Windowed(Apply(db, e), e.now) {
      var contest := e.request.changed;
      WindowedMeansInWindow(Apply(db, e), e.now, contest);
      ContainsMeansAll(Apply(db, e).contests[contest], CastTimes(db, contest));
    }
  }

  // ---- Runs in which officials may change anything ----

  ghost predicate OnlySafeChanges(db: Tables, events: seq<Event>) {
    |events| == 0 ||
    (OnlySafeChanges(db, events[..|events| - 1]) && SafeChange(Run(db, events[..|events| - 1]), events[|events| - 1]))
  }

  /** After each request of the run every stored vote is inside its window. */
  ghost predicate AlwaysWindowed(db: Tables, start: Time, events: seq<Event>) {
    Windowed(Run(db, events), LastTime(start, events))
    && (|events| > 0 ==> AlwaysWindowed(db, start, events[..|events| - 1]))
  }

  lemma {:induction false} ClockOfFront(start: Time, events: seq<Event>)
    requires ClockFrom(start, events) && |events| > 0
    ensures ClockFrom(start, events[..|events| - 1])
    ensures LastTime(start, events[..|events| - 1]) <= events[|events| - 1].now
  {
  }

  /** Votes stay inside their windows all through a run exactly when every change in it is safe. */
  lemma {:induction false} AlwaysWindowedExactlyWhenSafe(db: Tables, start: Time, events: seq<Event>)
    requires Windowed(db, start) && ClockFrom(start, events)
    ensures AlwaysWindowed(db, start, events) <==> OnlySafeChanges(db, events)
  {
    if |events| > 0 {
      var front, e := events[..|events| - 1], events[|events| - 1];
      ClockOfFront(start, events);
      AlwaysWindowedExactlyWhenSafe(db, start, front);
      if AlwaysWindowed(db, start, front) {
        if e.request.Change? {
          ChangeKeepsWindowsExactlyWhenSafe(Run(db, front), e, LastTime(start, front));
        } else {
          StepKeepsWindowed(Run(db, front), e, LastTime(start, front));
        }
      }
    }
  }
}
