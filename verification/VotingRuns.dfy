/** Runs of the voting tables: any sequence of requests, each one atomic, from any stored state. */
module VotingRuns {
  import opened Ballots
  import opened Records
  import opened RankedRows
  import opened VotingWindow
  import opened VotingTables
  import VotingDatabase

  datatype Request =
    | Create(contest: Contest, row: ContestRow)
    | Issue(issuedFor: Contest, constituency: Option<Id>, values: seq<Generated>)
    | Cast(vote: CastRequest, facts: Facts)
    | CastReferendum(choice: ReferendumRequest, voterFacts: Facts)
    | Visit(visited: Contest)
    | Change(changed: Contest, dto: VotingWindow.Update)

  /** A request and the time at which it is served. */
  datatype Event = Event(request: Request, now: Time)

  function Keep(db: Tables, outcome: Outcome): Tables {
    match outcome
    case Done(after) => after
    case Failed(_) => db
  }

  function Apply(db: Tables, e: Event): Tables {
    match e.request
    case Create(contest, row) =>
      if contest in db.contests then db else db.(contests := db.contests[contest := Synced(row, e.now)])
    case Issue(contest, constituency, values) => Keep(db, IssueTokens(db, contest, constituency, values))
    case Cast(req, facts) => Keep(db, CastVote(db, req, facts, e.now))
    case CastReferendum(req, facts) => Keep(db, CastReferendumVote(db, req, facts, e.now))
    case Visit(contest) =>
      if contest in db.contests then db.(contests := db.contests[contest := Synced(db.contests[contest], e.now)])
        else db
    case Change(contest, dto) =>
      if contest !in db.contests then db
      else
        match UpdateRow(db.contests[contest], dto, e.now)
        case Accepted(row) => db.(contests := db.contests[contest := row])
        case Rejected(_) => db
  }

  function Run(db: Tables, events: seq<Event>): Tables {
    if |events| == 0 then db else Apply(Run(db, events[..|events| - 1]), events[|events| - 1])
  }

  const EMPTY: Tables := Tables(map[], map[], [], [], [], [])

  lemma {:induction false} RunOfTwo(db: Tables, a: Event, b: Event)
    ensures Run(db, [a, b]) == Apply(Apply(db, a), b)
  {
    assert [a, b][..1] == [a] && [a][..0] == [];
    assert Run(db, [a]) == Apply(Run(db, []), a);
  }

  lemma {:induction false} RunOfThree(db: Tables, a: Event, b: Event, c: Event)
    ensures Run(db, [a, b, c]) == Apply(Apply(Apply(db, a), b), c)
  {
    RunOfTwo(db, a, b);
    assert [a, b, c][..2] == [a, b];
  }

  // ---- What every request keeps ----

  function UsedTokens(tokens: map<Token, BallotToken>, contest: Contest): set<Token> {
    set k | k in tokens && tokens[k].contest == contest && tokens[k].used
  }

  function IssuedTokens(tokens: map<Token, BallotToken>, contest: Contest): set<Token> {
    set k | k in tokens && tokens[k].contest == contest
  }

  function LedgerCount(ledger: seq<LedgerEntry>, contest: Contest): nat {
    if |ledger| == 0 then 0
    else LedgerCount(ledger[..|ledger| - 1], contest) + if ledger[|ledger| - 1].contest == contest then 1 else 0
  }

  ghost predicate OneEntryEach(ledger: seq<LedgerEntry>) {
    forall entry :: EntriesFor(ledger, entry) <= 1
  }

  ghost predicate OneTallyEach(tallies: seq<Tally>) {
    forall key :: TalliesFor(tallies, key) <= 1
  }

  ghost predicate LedgerMatchesTokens(db: Tables) {
    forall contest :: |UsedTokens(db.tokens, contest)| == LedgerCount(db.ledger, contest)
  }

  ghost predicate GeneratedTokens(tokens: map<Token, BallotToken>) {
    forall k :: k in tokens ==> UuidText(k.text)
  }

  ghost predicate Sound(db: Tables) {
    OneEntryEach(db.ledger) && OneTallyEach(db.tallies) && LedgerMatchesTokens(db) && GeneratedTokens(db.tokens)
  }

  // ---- One ballot at a time ----

  lemma {:induction false} BumpedKeys(tallies: seq<Tally>, key: TallyKey, other: TallyKey)
    ensures TalliesFor(Bumped(tallies, key), other) == TalliesFor(tallies, other)
  {
    if |tallies| > 0 {
      BumpedKeys(tallies[..|tallies| - 1], key, other);
      assert Bumped(tallies, key)[..|Bumped(tallies, key)| - 1] == Bumped(tallies[..|tallies| - 1], key);
    }
  }

  lemma {:induction false} TallyAppend(tallies: seq<Tally>, key: TallyKey, other: TallyKey)
    ensures TalliesFor(tallies + [Tally(key, 1)], other) == TalliesFor(tallies, other) + if key == other then 1 else 0
  {
    assert (tallies + [Tally(key, 1)])[..|tallies|] == tallies;
  }

  lemma {:induction false} IncrementKeepsOneEach(tallies: seq<Tally>, key: Option<TallyKey>)
    requires OneTallyEach(tallies)
    ensures Incremented(tallies, key).Some? && OneTallyEach(Incremented(tallies, key).value)
  {
    if key.Some? {
      assert TalliesFor(tallies, key.value) <= 1;
      forall other ensures TalliesFor(Incremented(tallies, key).value, other) <= 1 {
        assert TalliesFor(tallies, other) <= 1;
        if TalliesFor(tallies, key.value) == 0 {
          TallyAppend(tallies, key.value, other);
        } else {
          BumpedKeys(tallies, key.value, other);
        }
      }
    }
  }

  lemma {:induction false} LedgerAppend(ledger: seq<LedgerEntry>, entry: LedgerEntry)
    requires OneEntryEach(ledger) && EntriesFor(ledger, entry) == 0
    ensures OneEntryEach(ledger + [entry])
    ensures forall contest :: LedgerCount(ledger + [entry], contest)
                              == LedgerCount(ledger, contest) + if entry.contest == contest then 1 else 0
  {
    assert (ledger + [entry])[..|ledger|] == ledger;
    forall other ensures EntriesFor(ledger + [entry], other) <= 1 {
      assert EntriesFor(ledger, other) <= 1;
    }
  }

  lemma {:induction false} UsingAToken(tokens: map<Token, BallotToken>, k: Token, contest: Contest)
    requires k in tokens && !tokens[k].used
    ensures |UsedTokens(tokens[k := tokens[k].(used := true)], contest)|
            == |UsedTokens(tokens, contest)| + if tokens[k].contest == contest then 1 else 0
  {
    var after := tokens[k := tokens[k].(used := true)];
    if tokens[k].contest == contest {
      assert UsedTokens(after, contest) == UsedTokens(tokens, contest) + {k};
    } else {
      assert UsedTokens(after, contest) == UsedTokens(tokens, contest);
    }
  }

  /** A ballot that passed its checks is committed, and keeps the tables sound. */
  lemma {:induction false} CommitKeepsSound(db: Tables, contest: Contest, constituency: Option<Id>, row: ContestRow,
                                            voter: Id,
                         text: string, key: Option<TallyKey>)
    requires Sound(db) && TokenError(db, voter, contest, constituency, text).None?
    ensures Commit(db, contest, row, voter, text, key).Done?
    ensures Sound(Commit(db, contest, row, voter, text, key).tables)
  {
    IncrementKeepsOneEach(db.tallies, key);
    LedgerAppend(db.ledger, LedgerEntry(voter, contest));
    var after := Commit(db, contest, row, voter, text, key).tables;
    forall c ensures |UsedTokens(after.tokens, c)| == LedgerCount(after.ledger, c) {
      UsingAToken(db.tokens, IndexOf(text), c);
      assert |UsedTokens(db.tokens, c)| == LedgerCount(db.ledger, c);
    }
  }

  lemma {:induction false} IssuingKeepsSound(db: Tables, contest: Contest, constituency: Option<Id>,
                                             values: seq<Generated>)
    requires Sound(db) && IssueTokens(db, contest, constituency, values).Done?
    ensures Sound(IssueTokens(db, contest, constituency, values).tables)
  {
    var token := BallotToken(contest, constituency, false);
    var after := VotingTables.Issued(db.tokens, values, token);
    forall k ensures k in after ==> UuidText(k.text) {
      VotingDatabase.IssuedKeys(db.tokens, values, token, k);
      forall i | 0 <= i < |values| ensures UuidText(IndexOf(values[i]).text) {
      }
    }
    forall c ensures UsedTokens(after, c) == UsedTokens(db.tokens, c) {
      forall k ensures k in UsedTokens(after, c) <==> k in UsedTokens(db.tokens, c) {
        VotingDatabase.IssuedKeys(db.tokens, values, token, k);
        NewTokensAreNew(db.tokens, values, k);
      }
    }
    forall c ensures |UsedTokens(after, c)| == LedgerCount(db.ledger, c) {
      assert |UsedTokens(db.tokens, c)| == LedgerCount(db.ledger, c);
    }
  }

  lemma {:induction false} NewTokensAreNew(tokens: map<Token, BallotToken>, values: seq<Generated>, k: Token)
    requires AllNew(tokens, values)
    ensures k in tokens ==> forall i :: 0 <= i < |values| ==> IndexOf(values[i]) != k
  {
    if |values| > 0 {
      NewTokensAreNew(tokens, values[..|values| - 1], k);
    }
  }

  lemma {:induction false} CastKeepsSound(db: Tables, req: CastRequest, facts: Facts, now: Time)
    requires Sound(db) && CastError(db, req, facts, now).None?
    ensures Sound(Keep(db, CastVote(db, req, facts, now)))
  {
    var row := Synced(db.contests[Election(req.election)], now);
    var written := db.(votes := db.votes + NewVotes(row.system, req, now));
    assert TokenError(written, req.voter, Election(req.election), req.constituency, req.text).None?;
    CommitKeepsSound(written, Election(req.election), req.constituency, row, req.voter, req.text,
                     KeyFor(row.system, req));
  }

  lemma {:induction false} CastReferendumKeepsSound(db: Tables, req: ReferendumRequest, facts: Facts, now: Time)
    requires Sound(db) && ReferendumError(db, req, facts, now).None?
    ensures Sound(Keep(db, CastReferendumVote(db, req, facts, now)))
  {
    var row := Synced(db.contests[Referendum(req.referendum)], now);
    var written := db.(referendumVotes := db.referendumVotes
      + [ReferendumVote(req.referendum, req.choice, req.text, now)]);
    assert TokenError(written, req.voter, Referendum(req.referendum), None, req.text).None?;
    CommitKeepsSound(written, Referendum(req.referendum), None, row, req.voter, req.text, Some(ReferendumKey(req)));
  }

  lemma {:induction false} StepKeepsSound(db: Tables, e: Event)
    requires Sound(db)
    ensures Sound(Apply(db, e))
  {
    match e.request
    case Issue(contest, constituency, values) =>
      if IssueTokens(db, contest, constituency, values).Done? {
        IssuingKeepsSound(db, contest, constituency, values);
      }
    case Cast(req, facts) =>
      if CastError(db, req, facts, e.now).None? {
        CastKeepsSound(db, req, facts, e.now);
      }
    case CastReferendum(req, facts) =>
      if ReferendumError(db, req, facts, e.now).None? {
        CastReferendumKeepsSound(db, req, facts, e.now);
      }
    case _ =>
  }

  lemma {:induction false} RunKeepsSound(db: Tables, events: seq<Event>)
    requires Sound(db)
    ensures Sound(Run(db, events))
  {
    if |events| > 0 {
      RunKeepsSound(db, events[..|events| - 1]);
      StepKeepsSound(Run(db, events[..|events| - 1]), events[|events| - 1]);
    }
  }

  /** In a sound state a ballot that passes the checks is never turned away after them. */
  lemma {:induction false} AcceptedExactlyWhenChecked(db: Tables, req: CastRequest, facts: Facts, now: Time)
    requires Sound(db)
    ensures CastVote(db, req, facts, now).Done? <==> CastError(db, req, facts, now).None?
  {
    if CastError(db, req, facts, now).None? {
      StepKeepsSound(db, Event(Cast(req, facts), now));
      IncrementKeepsOneEach(db.tallies, KeyFor(Synced(db.contests[Election(req.election)], now).system, req));
    }
  }

  // ---- Reconciliation ----

  /** `fully_reconciled` of the audit report. */
  predicate Reconciled(db: Tables, contest: Contest) {
    && |UsedTokens(db.tokens, contest)| == LedgerCount(db.ledger, contest)
    && |UsedTokens(db.tokens, contest)| <= |IssuedTokens(db.tokens, contest)|
  }

  lemma {:induction false} EmptyIsSound()
    ensures Sound(EMPTY)
  {
    forall contest ensures UsedTokens(EMPTY.tokens, contest) == {} {
    }
  }

  /** After any run every contest reconciles, and no voter is in its ledger twice. */
  lemma {:induction false} AlwaysReconciled(events: seq<Event>, contest: Contest, voter: Id)
    ensures Reconciled(Run(EMPTY, events), contest)
    ensures EntriesFor(Run(EMPTY, events).ledger, LedgerEntry(voter, contest)) <= 1
  {
    EmptyIsSound();
    RunKeepsSound(EMPTY, events);
    var db := Run(EMPTY, events);
    SubsetSize(UsedTokens(db.tokens, contest), IssuedTokens(db.tokens, contest));
  }

  // ---- Tokens last ----

  /** No request forgets a token, moves it to another contest, or makes a used one unused. */
  ghost predicate TokensLast(before: map<Token, BallotToken>, after: map<Token, BallotToken>) {
    forall k :: k in before ==>
      k in after && after[k].contest == before[k].contest && after[k].constituency == before[k].constituency
      && (before[k].used ==> after[k].used)
  }

  lemma {:induction false} StepKeepsTokens(db: Tables, e: Event)
    ensures TokensLast(db.tokens, Apply(db, e).tokens)
  {
    match e.request
    case Issue(contest, constituency, values) =>
      if IssueTokens(db, contest, constituency, values).Done? {
        forall k | k in db.tokens ensures k in Apply(db, e).tokens && Apply(db, e).tokens[k] == db.tokens[k] {
          VotingDatabase.IssuedKeys(db.tokens, values, BallotToken(contest, constituency, false), k);
          NewTokensAreNew(db.tokens, values, k);
        }
      }
    case _ =>
  }

  lemma {:induction false} RunKeepsTokens(db: Tables, events: seq<Event>)
    ensures TokensLast(db.tokens, Run(db, events).tokens)
  {
    if |events| > 0 {
      RunKeepsTokens(db, events[..|events| - 1]);
      StepKeepsTokens(Run(db, events[..|events| - 1]), events[|events| - 1]);
    }
  }

  /** A token spent once is never accepted again, whoever sends it and however it is spelt. */
  lemma {:induction false} UsedTokenStaysRefused(db: Tables, events: seq<Event>, req: CastRequest, facts: Facts,
                                                 now: Time)
    requires IndexOf(req.text) in db.tokens && db.tokens[IndexOf(req.text)].used
    ensures CastVote(Run(db, events), req, facts, now).Failed?
  {
    RunKeepsTokens(db, events);
  }

  // ---- The electoral system is fixed outside DRAFT ----

  /** The contest is not a draft when any of the requests arrives. */
  ghost predicate NeverDraft(db: Tables, events: seq<Event>, contest: Contest) {
    |events| == 0 ||
    (NeverDraft(db, events[..|events| - 1], contest)
     && contest in Run(db, events[..|events| - 1]).contests
     && !Run(db, events[..|events| - 1]).contests[contest].status.Draft?)
  }

  lemma {:induction false} StepKeepsSystem(db: Tables, e: Event, contest: Contest)
    requires contest in db.contests && !db.contests[contest].status.Draft?
    ensures contest in Apply(db, e).contests && Apply(db, e).contests[contest].system == db.contests[contest].system
  {
    if e.request.Change? && e.request.changed == contest
      && UpdateRow(db.contests[contest], e.request.dto, e.now).Accepted? {
      UpdateChangesOnlyWhatIsAsked(db.contests[contest], e.request.dto, e.now);
    }
  }

  /** While it does not go back to DRAFT, a contest is counted by the system its first ballots were
      cast under. */
  lemma {:induction false} SystemIsFixed(db: Tables, events: seq<Event>, contest: Contest)
    requires contest in db.contests && NeverDraft(db, events, contest)
    ensures contest in Run(db, events).contests
            && Run(db, events).contests[contest].system == db.contests[contest].system
  {
    if |events| > 0 {
      SystemIsFixed(db, events[..|events| - 1], contest);
      StepKeepsSystem(Run(db, events[..|events| - 1]), events[|events| - 1], contest);
    }
  }

  // ---- Votes stay within the window ----

  ghost predicate Windowed(db: Tables, t: Time) {
    && (forall i :: 0 <= i < |db.votes| ==> VoteWindowed(db, Election(db.votes[i].election), db.votes[i].castAt, t))
    && (forall i :: 0 <= i < |db.referendumVotes| ==>
          VoteWindowed(db, Referendum(db.referendumVotes[i].referendum), db.referendumVotes[i].castAt, t))
  }

  ghost predicate VoteWindowed(db: Tables, contest: Contest, castAt: Time, t: Time) {
    && castAt <= t
    && contest in db.contests
    && WithinWindow(castAt, db.contests[contest].opens, db.contests[contest].closes)
  }

  /** Every contest keeps the votes cast up to `t` inside its window. */
  ghost predicate KeepsWindows(db: Tables, after: Tables, t: Time, now: Time) {
    forall contest, castAt :: VoteWindowed(db, contest, castAt, t) ==> VoteWindowed(after, contest, castAt, now)
  }

  ghost predicate ScheduleUntouched(e: Event) {
    e.request.Change? ==> StatusOnly(e.request.dto)
  }

  lemma {:induction false} StatusOnlyKeepsWindow(row: ContestRow, dto: VotingWindow.Update, now: Time, castAt: Time)
    requires StatusOnly(dto) && UpdateRow(row, dto, now).Accepted?
    requires castAt <= now && WithinWindow(castAt, row.opens, row.closes)
    ensures WithinWindow(castAt, UpdateRow(row, dto, now).row.opens, UpdateRow(row, dto, now).row.closes)
  {
  }

  lemma {:induction false} StepKeepsWindows(db: Tables, e: Event, t: Time)
    requires t <= e.now && ScheduleUntouched(e)
    ensures KeepsWindows(db, Apply(db, e), t, e.now)
  {
    forall contest, castAt | VoteWindowed(db, contest, castAt, t)
      ensures VoteWindowed(Apply(db, e), contest, castAt, e.now)
    {
      if e.request.Change? && e.request.changed == contest {
        var outcome := UpdateRow(db.contests[contest], e.request.dto, e.now);
        if outcome.Accepted? {
          StatusOnlyKeepsWindow(db.contests[contest], e.request.dto, e.now, castAt);
        }
      }
    }
  }

  lemma {:induction false} NewVotesWindowed(system: System, req: CastRequest, now: Time)
    ensures forall v :: v in NewVotes(system, req, now) ==> v.election == req.election && v.castAt == now
  {
    if req.ranked.Some? {
      RankedVotesWindowed(req, req.ranked.value, now);
    }
  }

  lemma {:induction false} RankedVotesWindowed(req: CastRequest, prefs: seq<Preference>, now: Time)
    ensures forall v :: v in RankedVotes(req, prefs, now) ==> v.election == req.election && v.castAt == now
  {
    if |prefs| > 0 {
      RankedVotesWindowed(req, prefs[..|prefs| - 1], now);
    }
  }

  lemma {:induction false} StepKeepsWindowed(db: Tables, e: Event, t: Time)
    requires Windowed(db, t) && t <= e.now && ScheduleUntouched(e)
    ensures Windowed(Apply(db, e), e.now)
  {
    StepKeepsWindows(db, e, t);
    var after := Apply(db, e);
    forall i | 0 <= i < |after.votes|
      ensures VoteWindowed(after, Election(after.votes[i].election), after.votes[i].castAt, e.now)
    {
      if i < |db.votes| {
        assert after.votes[i] == db.votes[i];
        assert VoteWindowed(db, Election(db.votes[i].election), db.votes[i].castAt, t);
      } else {
        var row := Synced(db.contests[Election(e.request.vote.election)], e.now);
        NewVotesWindowed(row.system, e.request.vote, e.now);
        assert after.votes[i] in NewVotes(row.system, e.request.vote, e.now);
      }
    }
    forall i | 0 <= i < |after.referendumVotes|
      ensures VoteWindowed(after, Referendum(after.referendumVotes[i].referendum), after.referendumVotes[i].castAt,
                           e.now)
    {
      if i < |db.referendumVotes| {
        assert after.referendumVotes[i] == db.referendumVotes[i];
        assert VoteWindowed(db, Referendum(db.referendumVotes[i].referendum), db.referendumVotes[i].castAt, t);
      }
    }
  }

  /** Requests are served at times that never go back, none before `start`. */
  ghost predicate ClockFrom(start: Time, events: seq<Event>) {
    && (|events| > 0 ==> start <= events[0].now)
    && forall i, j :: 0 <= i < j < |events| ==> events[i].now <= events[j].now
  }

  function LastTime(start: Time, events: seq<Event>): Time {
    if |events| == 0 then start else events[|events| - 1].now
  }

  /** While officials change only statuses, every vote stored lies within the current window of its
      contest, through closings that move the end and reopenings that drop it. */
  lemma {:induction false} VotesStayWithinWindow(db: Tables, start: Time, events: seq<Event>)
    requires Windowed(db, start) && ClockFrom(start, events)
    requires forall i :: 0 <= i < |events| ==> ScheduleUntouched(events[i])
    ensures Windowed(Run(db, events), LastTime(start, events))
  {
    if |events| > 0 {
      var front := events[..|events| - 1];
      VotesStayWithinWindow(db, start, front);
      StepKeepsWindowed(Run(db, front), events[|events| - 1], LastTime(start, front));
    }
  }
}
