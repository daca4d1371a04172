/** Where the ranked ballots accepted in a run end up: each in one constituency's rows, or, when it names
    no constituency, in nobody's. */
module RankedTurnout {
  import opened Ballots
  import opened Records
  import opened VotingTables
  import opened VotingRuns
  import opened RankedElections

  ghost predicate NoneMissing(ids: seq<Id>, events: seq<Event>, election: Id) {
    forall c :: |AcceptedBallots(EMPTY, events, election, c)| > 0 ==> c in ids
  }

  /** The ranked ballots accepted in a run for an election. */
  function AcceptedRanked(events: seq<Event>, election: Id): nat {
    if |events| == 0 then 0
    else
      var front, last := events[..|events| - 1], events[|events| - 1];
      AcceptedRanked(front, election) + if AcceptedIn(Run(EMPTY, front), last, election) then 1 else 0
  }

  /** Those of them that name no constituency: the validator asks for one under first past the post only. */
  function Unplaced(events: seq<Event>, election: Id): nat {
    if |events| == 0 then 0
    else
      var front, last := events[..|events| - 1], events[|events| - 1];
      Unplaced(front, election)
      + if AcceptedIn(Run(EMPTY, front), last, election) && last.request.vote.constituency.None? then 1 else 0
  }

  /** Those accepted in any of the constituencies. */
  function AcceptedOver(events: seq<Event>, election: Id, ids: seq<Id>): nat {
    if |ids| == 0 then 0
    else
      AcceptedOver(events, election, ids[..|ids| - 1])
      + |AcceptedBallots(EMPTY, events, election, ids[|ids| - 1])|
  }

  lemma {:induction false} NextInConstituency(events: seq<Event>, election: Id, c: Id)
    requires |events| > 0
    ensures var front, last := events[..|events| - 1], events[|events| - 1];
      |AcceptedBallots(EMPTY, events, election, c)|
      == |AcceptedBallots(EMPTY, front, election, c)|
        + if AcceptedHere(Run(EMPTY, front), last, election, c) then 1 else 0
  {
  }

  lemma {:induction false} NobodyOver(events: seq<Event>, election: Id, ids: seq<Id>)
    requires |events| == 0
    ensures AcceptedOver(events, election, ids) == 0
  {
    if |ids| > 0 {
      NobodyOver(events, election, ids[..|ids| - 1]);
    }
  }

  /** One more request adds to one of several different constituencies at most. */
  lemma {:induction false} NextOver(events: seq<Event>, election: Id, ids: seq<Id>)
    requires |events| > 0 && Distinct(ids)
    ensures var front, last := events[..|events| - 1], events[|events| - 1];
      AcceptedOver(events, election, ids)
      == AcceptedOver(front, election, ids) + if AcceptedAmong(Run(EMPTY, front), last, election, ids) then 1 else 0
  {
    if |ids| > 0 {
      var some, c := ids[..|ids| - 1], ids[|ids| - 1];
      NextOver(events, election, some);
      NextInConstituency(events, election, c);
      assert ids == some + [c];
    }
  }

  predicate AcceptedAmong(db: Tables, e: Event, election: Id, ids: seq<Id>) {
    AcceptedIn(db, e, election) && e.request.vote.constituency.Some? && e.request.vote.constituency.value in ids
  }

  lemma {:induction false} EarlierNoneMissing(ids: seq<Id>, events: seq<Event>, election: Id)
    requires |events| > 0 && NoneMissing(ids, events, election)
    ensures NoneMissing(ids, events[..|events| - 1], election)
    ensures var front, last := events[..|events| - 1], events[|events| - 1];
      AcceptedIn(Run(EMPTY, front), last, election) && last.request.vote.constituency.Some?
      ==> last.request.vote.constituency.value in ids
  {
    forall c ensures |AcceptedBallots(EMPTY, events[..|events| - 1], election, c)| > 0 ==> c in ids {
      NextInConstituency(events, election, c);
    }
    if AcceptedIn(Run(EMPTY, events[..|events| - 1]), events[|events| - 1], election)
       && events[|events| - 1].request.vote.constituency.Some? {
      NextInConstituency(events, election, events[|events| - 1].request.vote.constituency.value);
    }
  }

  /** After any run: the ballots of all constituencies and those without one are the ballots accepted. */
  lemma {:induction false} EveryBallotIsSomewhere(events: seq<Event>, election: Id, ids: seq<Id>)
    requires Distinct(ids) && NoneMissing(ids, events, election)
    ensures AcceptedOver(events, election, ids) + Unplaced(events, election) == AcceptedRanked(events, election)
  {
    if |events| == 0 {
      NobodyOver(events, election, ids);
    } else {
      EarlierNoneMissing(ids, events, election);
      EveryBallotIsSomewhere(events[..|events| - 1], election, ids);
      NextOver(events, election, ids);
    }
  }

  /** A ballot without a constituency leaves every constituency's rows as they were. */
  lemma {:induction false} UnplacedBallotIsCountedNowhere(db: Tables, e: Event, election: Id, c: Id)
    requires AcceptedIn(db, e, election) && e.request.vote.constituency.None?
    ensures RankedRowsOf(Apply(db, e).votes, election, c) == RankedRowsOf(db.votes, election, c)
  {
    RowsOfOneMoreEvent(db, e, election, c);
  }

  /** Any ranked ballot that is accepted would be without its constituency too. */
  lemma {:induction false} ConstituencyMayBeOmitted(db: Tables, req: CastRequest, facts: Facts, now: Time)
    requires Sound(db) && CastVote(db, req, facts, now).Done? && RankedSystem(db, Election(req.election), now)
    ensures CastVote(db, req.(constituency := None), facts, now).Done?
  {
    AcceptedExactlyWhenChecked(db, req, facts, now);
    AcceptedExactlyWhenChecked(db, req.(constituency := None), facts, now);
  }
}
