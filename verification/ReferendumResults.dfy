/** Referendum results and their cache, `get_referendum_results` of
    backend/app/service/result_service.py. Unlike election results they are kept whatever the status. */
module ReferendumResults {
  import opened Ballots
  import opened Records
  import opened RankedRows
  import opened VotingWindow
  import opened VotingTables
  import opened VotingRuns
  import opened LocalTotals
  import ResultCache
  import opened CastingRules

  datatype Verdict = Yes | No | Tie

  datatype ReferendumResult = ReferendumResult(yes: nat, no: nat, total: nat, verdict: Verdict)

  function ForChoice(referendum: Id, choice: Choice): TallyKey -> bool {
    (key: TallyKey) => key.contest == Referendum(referendum) && key.choice == Some(choice)
  }

  function Declared(yes: nat, no: nat): (r: ReferendumResult)
    ensures r.yes == yes && r.no == no && r.total == yes + no
    ensures r.verdict.Yes? <==> yes > no
    ensures r.verdict.No? <==> no > yes
    ensures r.verdict.Tie? <==> yes == no
  {
    ReferendumResult(yes, no, yes + no, if yes > no then Verdict.Yes else if no > yes then Verdict.No else Tie)
  }

  /** The result that the tallies give now. */
  function ResultOf(db: Tables, referendum: Id): ReferendumResult {
    Declared(SumTallies(db.tallies, ForChoice(referendum, Choice.Yes)),
             SumTallies(db.tallies, ForChoice(referendum, Choice.No)))
  }

  lemma {:induction false} SumPrefix(tallies: seq<Tally>, i: nat, p: TallyKey -> bool)
    requires i < |tallies|
    ensures SumTallies(tallies[..i + 1], p) == SumTallies(tallies[..i], p)
            + if p(tallies[i].key) then tallies[i].count else 0
  {
    assert tallies[..i + 1][..i] == tallies[..i];
  }

  class ReferendumService {
    var cache: map<Id, ReferendumResult>

    constructor ()
      ensures cache == map[]
    {
      cache := map[];
    }

    /** `get_referendum_results`: a result once given is given ever after. */
    method GetReferendumResults(db: Tables, referendum: Id) returns (result: ReferendumResult)
      modifies this
      ensures result == if referendum in old(cache) then old(cache)[referendum] else ResultOf(db, referendum)
      ensures cache == old(cache)[referendum := result]
      ensures referendum !in old(cache) ==>
        && result.yes == SumTallies(db.tallies, ForChoice(referendum, Choice.Yes))
        && result.no == SumTallies(db.tallies, ForChoice(referendum, Choice.No))
        && result.total == result.yes + result.no
        && (result.verdict.Yes? <==> result.yes > result.no)
        && (result.verdict.No? <==> result.no > result.yes)
    {
      if referendum in cache {
        return cache[referendum];
      }
      var yes, no := 0, 0;
      for i := 0 to |db.tallies|
        invariant yes == SumTallies(db.tallies[..i], ForChoice(referendum, Choice.Yes))
        invariant no == SumTallies(db.tallies[..i], ForChoice(referendum, Choice.No))
        invariant cache == old(cache)
      {
        var t := db.tallies[i];
        SumPrefix(db.tallies, i, ForChoice(referendum, Choice.Yes));
        SumPrefix(db.tallies, i, ForChoice(referendum, Choice.No));
        if t.key.contest == Referendum(referendum) {
          if t.key.choice == Some(Choice.Yes) {
            yes := yes + t.count;
          } else if t.key.choice == Some(Choice.No) {
            no := no + t.count;
          }
        }
      }
      assert db.tallies[..|db.tallies|] == db.tallies;
      result := Declared(yes, no);
      cache := cache[referendum := result];
    }
  }

  // ---- The result is that of the stored votes ----

  function VotesFor(votes: seq<ReferendumVote>, referendum: Id, choice: Choice): nat {
    if |votes| == 0 then 0
    else
      var last := votes[|votes| - 1];
      VotesFor(votes[..|votes| - 1], referendum, choice)
        + if last.referendum == referendum && last.choice == choice then 1 else 0
  }

  /** The request is a ballot accepted in the referendum. */
  predicate AcceptedFor(db: Tables, e: Event, referendum: Id) {
    && e.request.CastReferendum? && e.request.choice.referendum == referendum
    && CastReferendumVote(db, e.request.choice, e.request.voterFacts, e.now).Done?
  }

  lemma {:induction false} ElectionBallotsDoNotCount(db: Tables, e: Event, referendum: Id, choice: Choice)
    requires e.request.Cast?
    ensures SumTallies(Apply(db, e).tallies, ForChoice(referendum, choice))
            == SumTallies(db.tallies, ForChoice(referendum, choice))
  {
    var req := e.request.vote;
    if CastVote(db, req, e.request.facts, e.now).Done? {
      SumIncremented(db.tallies, KeyFor(Synced(db.contests[Election(req.election)], e.now).system, req),
                     ForChoice(referendum, choice));
    }
  }

  /** A request adds one to the choice of the ballot accepted, if it is one. */
  lemma {:induction false} StepCounts(db: Tables, e: Event, referendum: Id, choice: Choice)
    ensures SumTallies(Apply(db, e).tallies, ForChoice(referendum, choice))
            == SumTallies(db.tallies, ForChoice(referendum, choice))
               + if AcceptedFor(db, e, referendum) && e.request.choice.choice == choice then 1 else 0
  {
    if e.request.Cast? {
      ElectionBallotsDoNotCount(db, e, referendum, choice);
    } else if e.request.CastReferendum? && CastReferendumVote(db, e.request.choice, e.request.voterFacts, e.now).Done? {
      SumIncremented(db.tallies, Some(ReferendumKey(e.request.choice)), ForChoice(referendum, choice));
    }
  }

  lemma {:induction false} StepStores(db: Tables, e: Event, referendum: Id, choice: Choice)
    ensures VotesFor(Apply(db, e).referendumVotes, referendum, choice)
            == VotesFor(db.referendumVotes, referendum, choice)
               + if AcceptedFor(db, e, referendum) && e.request.choice.choice == choice then 1 else 0
  {
    if e.request.CastReferendum? && CastReferendumVote(db, e.request.choice, e.request.voterFacts, e.now).Done? {
      assert Apply(db, e).referendumVotes[..|db.referendumVotes|] == db.referendumVotes;
    }
  }

  lemma {:induction false} TalliesAreVotes(events: seq<Event>, referendum: Id, choice: Choice)
    ensures SumTallies(Run(EMPTY, events).tallies, ForChoice(referendum, choice))
            == VotesFor(Run(EMPTY, events).referendumVotes, referendum, choice)
  {
    if |events| > 0 {
      TalliesAreVotes(events[..|events| - 1], referendum, choice);
      StepCounts(Run(EMPTY, events[..|events| - 1]), events[|events| - 1], referendum, choice);
      StepStores(Run(EMPTY, events[..|events| - 1]), events[|events| - 1], referendum, choice);
    }
  }

  /** The stored votes for a choice, by their place in the table. */
  function StoredFor(votes: seq<ReferendumVote>, referendum: Id, choice: Choice): set<nat> {
    set i: nat | i < |votes| && votes[i].referendum == referendum && votes[i].choice == choice
  }

  lemma {:induction false} VotesAreStored(votes: seq<ReferendumVote>, referendum: Id, choice: Choice)
    ensures VotesFor(votes, referendum, choice) == |StoredFor(votes, referendum, choice)|
  {
    if |votes| == 0 {
      assert StoredFor(votes, referendum, choice) == {};
    } else {
      var n := |votes| - 1;
      VotesAreStored(votes[..n], referendum, choice);
      var before := StoredFor(votes[..n], referendum, choice);
      if votes[n].referendum == referendum && votes[n].choice == choice {
        assert StoredFor(votes, referendum, choice) == before + {n};
      } else {
        assert StoredFor(votes, referendum, choice) == before;
      }
    }
  }

  /** After any run the result is the one that the stored votes give, and the side with more of them has won. */
  lemma {:induction false} ResultIsThatOfTheVotes(events: seq<Event>, referendum: Id)
    ensures var votes, r := Run(EMPTY, events).referendumVotes, ResultOf(Run(EMPTY, events), referendum);
      var yes, no := |StoredFor(votes, referendum, Choice.Yes)|, |StoredFor(votes, referendum, Choice.No)|;
      && r.yes == yes && r.no == no && r.total == yes + no
      && (r.verdict.Yes? <==> yes > no) && (r.verdict.No? <==> no > yes) && (r.verdict.Tie? <==> yes == no)
  {
    TalliesAreVotes(events, referendum, Choice.Yes);
    TalliesAreVotes(events, referendum, Choice.No);
    VotesAreStored(Run(EMPTY, events).referendumVotes, referendum, Choice.Yes);
    VotesAreStored(Run(EMPTY, events).referendumVotes, referendum, Choice.No);
  }

  /** What a service that has not answered yet says after a run. */
  method FirstAnswer(ghost events: seq<Event>, db: Tables, referendum: Id) returns (result: ReferendumResult)
    requires db == Run(EMPTY, events)
    ensures result.yes == |StoredFor(db.referendumVotes, referendum, Choice.Yes)|
    ensures result.no == |StoredFor(db.referendumVotes, referendum, Choice.No)|
    ensures result.total == result.yes + result.no
    ensures result.verdict.Yes? <==> result.yes > result.no
    ensures result.verdict.No? <==> result.no > result.yes
    ensures result.verdict.Tie? <==> result.yes == result.no
  {
    var service := new ReferendumService();
    result := service.GetReferendumResults(db, referendum);
    ResultIsThatOfTheVotes(events, referendum);
  }

  // ---- When a cached result is out of date ----

  function AcceptedVotes(db: Tables, events: seq<Event>, referendum: Id): nat {
    if |events| == 0 then 0
    else
      var front, last := events[..|events| - 1], events[|events| - 1];
      AcceptedVotes(db, front, referendum) + if AcceptedFor(Run(db, front), last, referendum) then 1 else 0
  }

  lemma {:induction false} TotalGrowsByAccepted(db: Tables, events: seq<Event>, referendum: Id)
    ensures ResultOf(Run(db, events), referendum).total
            == ResultOf(db, referendum).total + AcceptedVotes(db, events, referendum)
    ensures AcceptedVotes(db, events, referendum) == 0 ==>
      ResultOf(Run(db, events), referendum) == ResultOf(db, referendum)
  {
    if |events| > 0 {
      var before, e := Run(db, events[..|events| - 1]), events[|events| - 1];
      TotalGrowsByAccepted(db, events[..|events| - 1], referendum);
      StepCounts(before, e, referendum, Choice.Yes);
      StepCounts(before, e, referendum, Choice.No);
    }
  }

  /** A result cached now is what would be computed after a run exactly when the run accepts no ballot in
      the referendum, whatever happens to its status and schedule. */
  lemma {:induction false} CachedResultHoldsExactlyWhenNobodyVotes(db: Tables, events: seq<Event>, referendum: Id)
    ensures ResultOf(Run(db, events), referendum) == ResultOf(db, referendum)
            <==> AcceptedVotes(db, events, referendum) == 0
  {
    TotalGrowsByAccepted(db, events, referendum);
  }

  // ---- When it can still get out of date ----

  /** From `t` on there is a time at which a synced row is open and inside its window. */
  predicate OpensFrom(row: ContestRow, t: Time) {
    && !row.status.Draft? && !row.status.Cancelled?
    && if row.opens.None? && row.closes.None? then row.status.Open?
       else row.closes.None? || OpeningInstant(row, t) <= row.closes.value
  }

  lemma {:induction false} OpensFromMeansTakesBallots(row: ContestRow, t: Time)
    ensures OpensFrom(row, t) <==> exists now :: t <= now && TakesBallots(row, now)
    ensures OpensFrom(row, t) ==> TakesBallots(row, OpeningInstant(row, t))
  {
    if OpensFrom(row, t) {
      assert t <= OpeningInstant(row, t) && TakesBallots(row, OpeningInstant(row, t));
    } else {
      forall now | t <= now ensures !TakesBallots(row, now) {
        NotOpenAt(row, t, now);
      }
    }
  }

  lemma {:induction false} NotOpenAt(row: ContestRow, t: Time, now: Time)
    requires !OpensFrom(row, t) && t <= now
    ensures !TakesBallots(row, now)
  {
  }

  /** Whatever voters do from `t` on, officials leaving the referendum alone, the result stays. */
  ghost predicate ResultFinal(db: Tables, referendum: Id, t: Time) {
    forall events :: ResultCache.Undisturbed(t, events, Referendum(referendum))
      ==> ResultOf(Run(db, events), referendum) == ResultOf(db, referendum)
  }

  lemma {:induction false} StaysShut(db: Tables, e: Event, referendum: Id, t: Time)
    requires Referendum(referendum) in db.contests && !OpensFrom(db.contests[Referendum(referendum)], t)
    requires t <= e.now && !(e.request.Change? && e.request.changed == Referendum(referendum))
    ensures !AcceptedFor(db, e, referendum)
    ensures Referendum(referendum) in Apply(db, e).contests
            && !OpensFrom(Apply(db, e).contests[Referendum(referendum)], t)
  {
    NotOpenAt(db.contests[Referendum(referendum)], t, e.now);
    ContestCheck(db.contests[Referendum(referendum)], e.now);
  }

  lemma {:induction false} NobodyVotesWhileShut(db: Tables, events: seq<Event>, referendum: Id, t: Time)
    requires Referendum(referendum) in db.contests && !OpensFrom(db.contests[Referendum(referendum)], t)
    requires ResultCache.Undisturbed(t, events, Referendum(referendum))
    ensures AcceptedVotes(db, events, referendum) == 0
    ensures Referendum(referendum) in Run(db, events).contests
    ensures !OpensFrom(Run(db, events).contests[Referendum(referendum)], t)
  {
    if |events| > 0 {
      NobodyVotesWhileShut(db, events[..|events| - 1], referendum, t);
      assert t <= events[0].now <= events[|events| - 1].now;
      StaysShut(Run(db, events[..|events| - 1]), events[|events| - 1], referendum, t);
    }
  }

  /** A new voter with a fresh token gets a vote in. */
  lemma {:induction false} VoteIsAccepted(db: Tables, e: Event, referendum: Id, text: string)
    requires Sound(db) && Referendum(referendum) in db.contests
             && TakesBallots(db.contests[Referendum(referendum)], e.now)
    requires e.request.CastReferendum? && e.request.voterFacts.eligible
    requires e.request.choice.referendum == referendum && e.request.choice.text == text
    requires EntriesFor(db.ledger, LedgerEntry(e.request.choice.voter, Referendum(referendum))) == 0
    requires IndexOf(text) in db.tokens && db.tokens[IndexOf(text)] == BallotToken(Referendum(referendum), None, false)
    ensures AcceptedFor(db, e, referendum)
  {
    ContestCheck(db.contests[Referendum(referendum)], e.now);
    IncrementKeepsOneEach(db.tallies, Some(ReferendumKey(e.request.choice)));
  }

  lemma {:induction false} LastOfThreeAccepted(db: Tables, a: Event, b: Event, c: Event, referendum: Id)
    requires AcceptedFor(Apply(Apply(db, a), b), c, referendum)
    ensures AcceptedVotes(db, [a, b, c], referendum) > 0
  {
    RunOfTwo(db, a, b);
    assert [a, b, c][..2] == [a, b];
  }

  /** While ballots are taken, a visit, an issue and a cast add a vote. */
  lemma {:induction false} OneMoreAcceptedVote(db: Tables, referendum: Id, now: Time) returns (events: seq<Event>)
    requires Sound(db) && Referendum(referendum) in db.contests
             && TakesBallots(db.contests[Referendum(referendum)], now)
    ensures forall i :: 0 <= i < |events| ==> events[i].now == now && !events[i].request.Change?
    ensures AcceptedVotes(db, events, referendum) > 0
  {
    var contest := Referendum(referendum);
    var text := ResultCache.UnusedText(db.tokens);
    var n := ResultCache.NewVoter(db.ledger);
    var visit, issue := Event(Visit(contest), now), Event(Issue(contest, None, [text]), now);
    var cast := Event(CastReferendum(ReferendumRequest(Uuid(n), referendum, Choice.Yes, text), Facts(true, {})), now);
    ResultCache.VisitAndIssue(db, contest, None, text, now);
    SyncIsIdempotent(db.contests[contest], now);
    VoteIsAccepted(Apply(Apply(db, visit), issue), cast, referendum, text);
    LastOfThreeAccepted(db, visit, issue, cast, referendum);
    events := [visit, issue, cast];
  }

  /** The result of a referendum is final from `t` on exactly when it takes no ballots at any time from then
      on: one given earlier, while voting goes on or before it starts, is kept and goes out of date. */
  lemma {:induction false} ResultIsFinalExactlyWhenShut(db: Tables, referendum: Id, t: Time)
    requires Sound(db) && Referendum(referendum) in db.contests
    ensures ResultFinal(db, referendum, t) <==> !OpensFrom(db.contests[Referendum(referendum)], t)
  {
    var row := db.contests[Referendum(referendum)];
    OpensFromMeansTakesBallots(row, t);
    if OpensFrom(row, t) {
      var events := OneMoreAcceptedVote(db, referendum, OpeningInstant(row, t));
      TotalGrowsByAccepted(db, events, referendum);
      assert ResultCache.Undisturbed(t, events, Referendum(referendum));
    } else {
      forall events | ResultCache.Undisturbed(t, events, Referendum(referendum))
        ensures ResultOf(Run(db, events), referendum) == ResultOf(db, referendum)
      {
        NobodyVotesWhileShut(db, events, referendum, t);
        TotalGrowsByAccepted(db, events, referendum);
      }
    }
  }
}
