/** The in-memory cache of closed-election results in backend/app/service/result_service.py, against
    everything that can still happen to the election. */
module ResultCache {
  import opened Ballots
  import opened Records
  import opened RankedRows
  import opened VotingWindow
  import opened VotingTables
  import opened VotingRuns

  /** All that an election result is computed from: its vote rows, its tallies and its system. */
  datatype Figures = Figures(votes: seq<Vote>, tallies: seq<Tally>, system: System)

  function VotesOf(votes: seq<Vote>, election: Id): seq<Vote> {
    if |votes| == 0 then []
    else VotesOf(votes[..|votes| - 1], election)
         + if votes[|votes| - 1].election == election then [votes[|votes| - 1]] else []
  }

  function TalliesOf(tallies: seq<Tally>, election: Id): seq<Tally> {
    if |tallies| == 0 then []
    else TalliesOf(tallies[..|tallies| - 1], election)
         + if tallies[|tallies| - 1].key.contest == Election(election) then [tallies[|tallies| - 1]] else []
  }

  function FiguresOf(db: Tables, election: Id): Figures
    requires Election(election) in db.contests
  {
    Figures(VotesOf(db.votes, election), TalliesOf(db.tallies, election), db.contests[Election(election)].system)
  }

  lemma {:induction false} VotesOfAsOften(votes: seq<Vote>, election: Id, v: Vote)
    ensures multiset(VotesOf(votes, election))[v] == if v.election == election then multiset(votes)[v] else 0
  {
    if |votes| > 0 {
      VotesOfAsOften(votes[..|votes| - 1], election, v);
      assert votes == votes[..|votes| - 1] + [votes[|votes| - 1]];
    }
  }

  lemma {:induction false} TalliesOfAsOften(tallies: seq<Tally>, election: Id, t: Tally)
    ensures multiset(TalliesOf(tallies, election))[t]
            == if t.key.contest == Election(election) then multiset(tallies)[t] else 0
  {
    if |tallies| > 0 {
      TalliesOfAsOften(tallies[..|tallies| - 1], election, t);
      assert tallies == tallies[..|tallies| - 1] + [tallies[|tallies| - 1]];
    }
  }

  /** The rows of the election, each as often as it is stored, and its system. */
  ghost predicate HoldsAllOf(f: Figures, db: Tables, election: Id) {
    && (forall v :: multiset(f.votes)[v] == if v.election == election then multiset(db.votes)[v] else 0)
    && (forall t :: multiset(f.tallies)[t]
                    == if t.key.contest == Election(election) then multiset(db.tallies)[t] else 0)
    && Election(election) in db.contests && f.system == db.contests[Election(election)].system
  }

  lemma {:induction false} FiguresHoldAll(db: Tables, election: Id)
    requires Election(election) in db.contests
    ensures HoldsAllOf(FiguresOf(db, election), db, election)
  {
    forall v ensures multiset(VotesOf(db.votes, election))[v]
                     == if v.election == election then multiset(db.votes)[v] else 0
    {
      VotesOfAsOften(db.votes, election, v);
    }
    forall t ensures multiset(TalliesOf(db.tallies, election))[t]
                     == if t.key.contest == Election(election) then multiset(db.tallies)[t] else 0
    {
      TalliesOfAsOften(db.tallies, election, t);
    }
  }

  predicate IsClosed(db: Tables, election: Id) {
    Election(election) in db.contests && db.contests[Election(election)].status.Closed?
  }

  /** Every cached result belongs to a closed election and is what would be computed now. */
  ghost predicate Coherent(db: Tables, cache: map<Id, Figures>) {
    forall election :: election in cache ==> IsClosed(db, election) && cache[election] == FiguresOf(db, election)
  }

  class ResultService {
    var cache: map<Id, Figures>

    constructor ()
      ensures cache == map[]
    {
      cache := map[];
    }

    /** `get_election_results`: the cache first, then the tables; only closed results are kept. */
    method GetElectionResults(db: Tables, election: Id) returns (result: Option<Figures>)
      modifies this
      ensures election in old(cache) ==> result == Some(old(cache)[election]) && cache == old(cache)
      ensures election !in old(cache) && Election(election) !in db.contests ==> result == None && cache == old(cache)
      ensures election !in old(cache) && Election(election) in db.contests ==>
                && result == Some(FiguresOf(db, election))
                && cache == if IsClosed(db, election) then old(cache)[election := FiguresOf(db, election)]
                  else old(cache)
      ensures old(Coherent(db, cache)) ==>
                Coherent(db, cache) && (result.Some? ==>
                  Election(election) in db.contests && result.value == FiguresOf(db, election)
                  && HoldsAllOf(result.value, db, election))
    {
      if Election(election) in db.contests {
        FiguresHoldAll(db, election);
      }
      if election in cache {
        return Some(cache[election]);
      }
      if Election(election) !in db.contests {
        return None;
      }
      var current := FiguresOf(db, election);
      if db.contests[Election(election)].status.Closed? {
        cache := cache[election := current];
      }
      result := Some(current);
    }
  }

  // ---- While a contest stays closed nothing about it changes ----

  lemma {:induction false} VotesOfConcat(a: seq<Vote>, b: seq<Vote>, election: Id)
    ensures VotesOf(a + b, election) == VotesOf(a, election) + VotesOf(b, election)
  {
    if |b| == 0 {
      assert a + b == a;
    } else {
      assert (a + b)[..|a + b| - 1] == a + b[..|b| - 1];
      VotesOfConcat(a, b[..|b| - 1], election);
    }
  }

  lemma {:induction false} VotesOfOthers(votes: seq<Vote>, election: Id)
    requires forall v :: v in votes ==> v.election != election
    ensures VotesOf(votes, election) == []
  {
    if |votes| > 0 {
      VotesOfOthers(votes[..|votes| - 1], election);
    }
  }

  lemma {:induction false} TalliesOfBumped(tallies: seq<Tally>, key: TallyKey, election: Id)
    requires key.contest != Election(election)
    ensures TalliesOf(Bumped(tallies, key), election) == TalliesOf(tallies, election)
  {
    if |tallies| > 0 {
      TalliesOfBumped(tallies[..|tallies| - 1], key, election);
      assert Bumped(tallies, key)[..|Bumped(tallies, key)| - 1] == Bumped(tallies[..|tallies| - 1], key);
    }
  }

  lemma {:induction false} TalliesOfIncremented(tallies: seq<Tally>, key: Option<TallyKey>, election: Id)
    requires Incremented(tallies, key).Some? && (key.Some? ==> key.value.contest != Election(election))
    ensures TalliesOf(Incremented(tallies, key).value, election) == TalliesOf(tallies, election)
  {
    if key.Some? {
      assert (tallies + [Tally(key.value, 1)])[..|tallies|] == tallies;
      TalliesOfBumped(tallies, key.value, election);
    }
  }

  /** A ballot accepted for another contest leaves the figures alone. */
  lemma {:induction false} OtherBallotsDoNotCount(db: Tables, req: CastRequest, facts: Facts, now: Time, election: Id)
    requires CastVote(db, req, facts, now).Done? && req.election != election
    ensures VotesOf(CastVote(db, req, facts, now).tables.votes, election) == VotesOf(db.votes, election)
    ensures TalliesOf(CastVote(db, req, facts, now).tables.tallies, election) == TalliesOf(db.tallies, election)
  {
    var system := Synced(db.contests[Election(req.election)], now).system;
    NewVotesWindowed(system, req, now);
    VotesOfConcat(db.votes, NewVotes(system, req, now), election);
    VotesOfOthers(NewVotes(system, req, now), election);
    TalliesOfIncremented(db.tallies, KeyFor(system, req), election);
  }

  lemma {:induction false} BallotsForClosedElections(db: Tables, req: CastRequest, facts: Facts, now: Time,
                                                     election: Id)
    requires CastVote(db, req, facts, now).Done? && Election(election) in db.contests
    requires IsClosed(CastVote(db, req, facts, now).tables, election)
    ensures req.election != election
  {
  }

  lemma {:induction false} CastLeavesClosedFigures(db: Tables, e: Event, election: Id)
    requires e.request.Cast? && IsClosed(db, election) && IsClosed(Apply(db, e), election)
    ensures FiguresOf(Apply(db, e), election) == FiguresOf(db, election)
  {
    if CastVote(db, e.request.vote, e.request.facts, e.now).Done? {
      BallotsForClosedElections(db, e.request.vote, e.request.facts, e.now, election);
      OtherBallotsDoNotCount(db, e.request.vote, e.request.facts, e.now, election);
    }
  }

  lemma {:induction false} CastReferendumLeavesFigures(db: Tables, e: Event, election: Id)
    requires e.request.CastReferendum? && Election(election) in db.contests
    ensures Election(election) in Apply(db, e).contests
    ensures FiguresOf(Apply(db, e), election) == FiguresOf(db, election)
  {
    if CastReferendumVote(db, e.request.choice, e.request.voterFacts, e.now).Done? {
      TalliesOfIncremented(db.tallies, Some(ReferendumKey(e.request.choice)), election);
    }
  }

  lemma {:induction false} OfficialsLeaveClosedFigures(db: Tables, e: Event, election: Id)
    requires !e.request.Cast? && !e.request.CastReferendum?
    requires IsClosed(db, election) && IsClosed(Apply(db, e), election)
    ensures FiguresOf(Apply(db, e), election) == FiguresOf(db, election)
  {
  }

  /** A request after which a closed election is still closed has not touched its figures. */
  lemma {:induction false} ClosedFiguresStay(db: Tables, e: Event, election: Id)
    requires IsClosed(db, election) && IsClosed(Apply(db, e), election)
    ensures FiguresOf(Apply(db, e), election) == FiguresOf(db, election)
  {
    if e.request.Cast? {
      CastLeavesClosedFigures(db, e, election);
    } else if e.request.CastReferendum? {
      CastReferendumLeavesFigures(db, e, election);
    } else {
      OfficialsLeaveClosedFigures(db, e, election);
    }
  }

  /** None of the cached elections leaves CLOSED during the request. */
  ghost predicate NoneReopens(db: Tables, cache: map<Id, Figures>) {
    forall election :: election in cache ==> IsClosed(db, election)
  }

  ghost predicate NeverReopens(db: Tables, cache: map<Id, Figures>, events: seq<Event>) {
    |events| == 0 ||
    (NeverReopens(db, cache, events[..|events| - 1]) && NoneReopens(Run(db, events), cache))
  }

  /** As long as no election leaves CLOSED after its result is cached, the cache stays coherent. */
  lemma {:induction false} CacheStaysCoherent(db: Tables, cache: map<Id, Figures>, events: seq<Event>)
    requires Coherent(db, cache) && NeverReopens(db, cache, events)
    ensures Coherent(Run(db, events), cache)
  {
    if |events| > 0 {
      var front, e := events[..|events| - 1], events[|events| - 1];
      CacheStaysCoherent(db, cache, front);
      forall election | election in cache
        ensures IsClosed(Run(db, events), election) && cache[election] == FiguresOf(Run(db, events), election)
      {
        assert IsClosed(Run(db, front), election);
        ClosedFiguresStay(Run(db, front), e, election);
      }
    }
  }

  // ---- When a cached result can become stale without any official's doing ----

  /** No official changes this contest during the run. */
  ghost predicate LeftAlone(events: seq<Event>, contest: Contest) {
    forall i :: 0 <= i < |events| ==> !(events[i].request.Change? && events[i].request.changed == contest)
  }

  ghost predicate Undisturbed(t: Time, events: seq<Event>, contest: Contest) {
    ClockFrom(t, events) && LeftAlone(events, contest)
  }

  /** Whatever voters and readers do from `t` on, the figures stay as they are. */
  ghost predicate FiguresFinal(db: Tables, election: Id, t: Time)
    requires Election(election) in db.contests
  {
    forall events :: Undisturbed(t, events, Election(election)) ==> FiguresUnchanged(db, events, election)
  }

  ghost predicate FiguresUnchanged(db: Tables, events: seq<Event>, election: Id)
    requires Election(election) in db.contests
  {
    Election(election) in Run(db, events).contests && FiguresOf(Run(db, events), election) == FiguresOf(db, election)
  }

  lemma {:induction false} LockedStep(db: Tables, e: Event, election: Id, t: Time)
    requires IsClosed(db, election) && LockedFrom(db.contests[Election(election)], t) && t <= e.now
    requires !(e.request.Change? && e.request.changed == Election(election))
    ensures Election(election) in Apply(db, e).contests
    ensures Apply(db, e).contests[Election(election)] == db.contests[Election(election)]
  {
    var row := db.contests[Election(election)];
    LockedMeansClosedForGood(row, t);
    assert Synced(row, e.now).status.Closed?;
    assert Synced(row, e.now) == row;
  }

  lemma {:induction false} LockedRowStays(db: Tables, election: Id, t: Time, events: seq<Event>)
    requires IsClosed(db, election) && LockedFrom(db.contests[Election(election)], t)
    requires Undisturbed(t, events, Election(election))
    ensures IsClosed(Run(db, events), election)
    ensures Run(db, events).contests[Election(election)] == db.contests[Election(election)]
    ensures FiguresUnchanged(db, events, election)
  {
    if |events| > 0 {
      var front, e := events[..|events| - 1], events[|events| - 1];
      LockedRowStays(db, election, t, front);
      assert t <= events[0].now <= e.now;
      LockedStep(Run(db, front), e, election, t);
      ClosedFiguresStay(Run(db, front), e, election);
    }
  }

  // A run that gets one more vote into an election that opens again.

  function Repeat(n: nat): (s: string)
    ensures |s| == n && forall i :: 0 <= i < n ==> s[i] == 'a'
  {
    if n == 0 then "" else Repeat(n - 1) + ['a']
  }

  lemma {:induction false} LongerThanAll(K: set<Token>) returns (n: nat)
    ensures forall k :: k in K ==> |k.text| < n
  {
    if K == {} {
      n := 0;
    } else {
      var k :| k in K;
      n := LongerThanAll(K - {k});
      n := if |k.text| < n then n else |k.text| + 1;
    }
  }

  lemma {:induction false} UnusedText(tokens: map<Token, BallotToken>) returns (text: Generated)
    ensures IndexOf(text) !in tokens
  {
    var n := LongerThanAll(tokens.Keys);
    text := Repeat(n);
    assert |IndexOf(text).text| == n;
  }

  lemma {:induction false} NewVoter(ledger: seq<LedgerEntry>) returns (n: nat)
    ensures forall m: nat, contest :: m >= n ==> EntriesFor(ledger, LedgerEntry(Uuid(m), contest)) == 0
  {
    if |ledger| == 0 {
      n := 0;
    } else {
      n := NewVoter(ledger[..|ledger| - 1]);
      var last := ledger[|ledger| - 1].voter.text;
      n := if last < n then n else last + 1;
    }
  }

  /** A request that is valid under every electoral system. */
  function AnyBallot(voter: Id, election: Id, text: string): CastRequest {
    CastRequest(voter, election, Some(Uuid(0)), Some(Uuid(0)), None, Some([Preference(1, Uuid(0))]), text)
  }

  lemma {:induction false} AnyBallotIsValid(system: System, voter: Id, election: Id, text: string)
    ensures PayloadError(system, AnyBallot(voter, election, text)).None?
    ensures CandidatesExist(system, AnyBallot(voter, election, text), {Uuid(0)})
    ensures forall now :: |NewVotes(system, AnyBallot(voter, election, text), now)| == 1
  {
    var p := Preference(1, Uuid(0));
    assert [p][..0] == [];
    assert SortByRank([p]) == [p];
    forall now ensures |NewVotes(system, AnyBallot(voter, election, text), now)| == 1 {
      assert RankedVotes(AnyBallot(voter, election, text), [p][..0], now) == [];
    }
  }

  lemma {:induction false} IssueOne(tokens: map<Token, BallotToken>, text: Generated, token: BallotToken)
    requires IndexOf(text) !in tokens
    ensures AllNew(tokens, [text])
    ensures VotingTables.Issued(tokens, [text], token) == tokens[IndexOf(text) := token]
  {
    var values: seq<Generated> := [text];
    assert values[..|values| - 1] == [];
    assert AllNew(tokens, []);
    assert VotingTables.Issued(tokens, [], token) == tokens;
  }

  /** A new voter with a fresh token gets a vote in. */
  lemma {:induction false} VoteIsAdded(db: Tables, election: Id, voter: Id, text: string, now: Time)
    requires Sound(db) && Election(election) in db.contests
    requires ContestError(Synced(db.contests[Election(election)], now), now).None?
    requires EntriesFor(db.ledger, LedgerEntry(voter, Election(election))) == 0
    requires IndexOf(text) in db.tokens && db.tokens[IndexOf(text)]
            == BallotToken(Election(election), Some(Uuid(0)), false)
    ensures var after := Apply(db, Event(Cast(AnyBallot(voter, election, text), Facts(true, {Uuid(0)})), now));
      Election(election) in after.contests && |VotesOf(after.votes, election)| > |VotesOf(db.votes, election)|
  {
    var row := Synced(db.contests[Election(election)], now);
    var req := AnyBallot(voter, election, text);
    AnyBallotIsValid(row.system, voter, election, text);
    AcceptedExactlyWhenChecked(db, req, Facts(true, {Uuid(0)}), now);
    VotesOfConcat(db.votes, NewVotes(row.system, req, now), election);
    NewVotesWindowed(row.system, req, now);
    VotesOfOwn(NewVotes(row.system, req, now), election);
  }

  /** Once synced open, a contest issues a fresh token; nothing else about the stored ballots changes. */
  lemma {:induction false} VisitAndIssue(db: Tables, contest: Contest, place: Option<Id>, text: Generated, now: Time)
    requires Sound(db) && contest in db.contests && Synced(db.contests[contest], now).status.Open?
    requires IndexOf(text) !in db.tokens
    ensures var after := Apply(Apply(db, Event(Visit(contest), now)), Event(Issue(contest, place, [text]), now));
      && Sound(after)
      && after == db.(contests := db.contests[contest := Synced(db.contests[contest], now)],
                      tokens := db.tokens[IndexOf(text) := BallotToken(contest, place, false)])
  {
    var visit, issue := Event(Visit(contest), now), Event(Issue(contest, place, [text]), now);
    IssueOne(db.tokens, text, BallotToken(contest, place, false));
    StepKeepsSound(db, visit);
    StepKeepsSound(Apply(db, visit), issue);
  }

  function VisitIn(election: Id, now: Time): Event {
    Event(Visit(Election(election)), now)
  }

  function IssueIn(election: Id, text: Generated, now: Time): Event {
    Event(Issue(Election(election), Some(Uuid(0)), [text]), now)
  }

  function CastIn(election: Id, voter: Id, text: string, now: Time): Event {
    Event(Cast(AnyBallot(voter, election, text), Facts(true, {Uuid(0)})), now)
  }

  /** Once synced open, the election issues a token and accepts a ballot with it. */
  lemma {:induction false} ThreeStepsAddAVote(db: Tables, election: Id, voter: Id, text: Generated, now: Time)
    requires Sound(db) && Election(election) in db.contests
    requires ContestError(Synced(db.contests[Election(election)], now), now).None?
    requires EntriesFor(db.ledger, LedgerEntry(voter, Election(election))) == 0 && IndexOf(text) !in db.tokens
    ensures var issued := Apply(Apply(db, VisitIn(election, now)), IssueIn(election, text, now));
      var after := Apply(issued, CastIn(election, voter, text, now));
      Election(election) in after.contests && |VotesOf(after.votes, election)| > |VotesOf(db.votes, election)|
  {
    VisitAndIssue(db, Election(election), Some(Uuid(0)), text, now);
    SyncIsIdempotent(db.contests[Election(election)], now);
    var issued := Apply(Apply(db, VisitIn(election, now)), IssueIn(election, text, now));
    VoteIsAdded(issued, election, voter, text, now);
  }

  /** So there is a run that changes the figures. */
  lemma {:induction false} OneMoreVote(db: Tables, election: Id, now: Time) returns (events: seq<Event>)
    requires Sound(db) && Election(election) in db.contests && Synced(db.contests[Election(election)], now).status.Open?
    requires WithinWindow(now, db.contests[Election(election)].opens, db.contests[Election(election)].closes)
    ensures forall i :: 0 <= i < |events| ==> events[i].now == now && !events[i].request.Change?
    ensures |events| > 0 && Election(election) in Run(db, events).contests
    ensures |VotesOf(Run(db, events).votes, election)| > |VotesOf(db.votes, election)|
  {
    var text := UnusedText(db.tokens);
    var n := NewVoter(db.ledger);
    ThreeStepsAddAVote(db, election, Uuid(n), text, now);
    events := [VisitIn(election, now), IssueIn(election, text, now), CastIn(election, Uuid(n), text, now)];
    RunOfThree(db, VisitIn(election, now), IssueIn(election, text, now), CastIn(election, Uuid(n), text, now));
  }

  lemma {:induction false} VotesOfOwn(votes: seq<Vote>, election: Id)
    requires forall v :: v in votes ==> v.election == election
    ensures VotesOf(votes, election) == votes
  {
    if |votes| > 0 {
      VotesOfOwn(votes[..|votes| - 1], election);
      assert votes == votes[..|votes| - 1] + [votes[|votes| - 1]];
    }
  }

  /** The figures of a closed election are final, officials leaving it alone, exactly when its
      schedule is locked: a result cached before voting opens is not. */
  lemma {:induction false} ClosedResultIsFinalExactlyWhenLocked(db: Tables, election: Id, t: Time)
    requires Sound(db) && IsClosed(db, election)
    ensures FiguresFinal(db, election, t) <==> LockedFrom(db.contests[Election(election)], t)
  {
    var row := db.contests[Election(election)];
    if LockedFrom(row, t) {
      forall events | Undisturbed(t, events, Election(election)) ensures FiguresUnchanged(db, events, election) {
        LockedRowStays(db, election, t, events);
      }
    } else {
      var now := OpeningInstant(row, t);
      var events := OneMoreVote(db, election, now);
      assert Undisturbed(t, events, Election(election));
      assert !FiguresUnchanged(db, events, election);
    }
  }
}
