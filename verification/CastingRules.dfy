/** Which requests the voting services accept, and what an accepted one leaves in the tables, told in terms
    of the stored rows and the request alone. */
module CastingRules {
  import opened Ballots
  import opened Records
  import opened RankedRows
  import opened VotingWindow
  import opened VotingTables
  import opened VotingRuns
  import VotingDatabase

  // ---- The conditions ----

  /** The contest takes ballots: its schedule says so, or without a schedule its status. */
  predicate TakesBallots(row: ContestRow, now: Time) {
    && row.status != Draft && row.status != Cancelled
    && (row.opens.Some? ==> row.opens.value <= now)
    && (row.closes.Some? ==> now <= row.closes.value)
    && (row.opens.None? && row.closes.None? ==> row.status == Open)
  }

  /** `low` is `text` with the capital letters A to Z made small. */
  predicate IsLowerOf(low: string, text: string) {
    |low| == |text| && forall i :: 0 <= i < |text| ==>
      if 'A' <= text[i] <= 'Z' then low[i] as int == text[i] as int + 32 else low[i] == text[i]
  }

  /** What a ballot must hold under each electoral system. */
  ghost predicate IsFilledIn(system: System, req: CastRequest) {
    match system
    case Fptp => req.candidate.Some? && req.constituency.Some?
    case Ams => req.candidate.Some? || req.party.Some?
    case _ => req.ranked.Some? && GivesAllRanks(req.ranked.value)
  }

  /** Some stored token, spelt like this but for case, is unused and for this contest, and for this
      constituency if one is given. */
  ghost predicate TokenIsGood(tokens: map<Token, BallotToken>, text: string, contest: Contest, place: Option<Id>) {
    exists k :: k in tokens && IsLowerOf(k.text, text) && !tokens[k].used && tokens[k].contest == contest
                && (place.None? || tokens[k].constituency == place)
  }

  predicate NamesKnownCandidates(system: System, req: CastRequest, candidates: set<Id>) {
    && (req.candidate.Some? ==> req.candidate.value in candidates)
    && (system in {Stv, Av} && req.ranked.Some? ==>
          forall i :: 0 <= i < |req.ranked.value| ==> req.ranked.value[i].candidate in candidates)
  }

  // ---- Each check, against its condition ----

  lemma {:induction false} ContestCheck(row: ContestRow, now: Time)
    ensures ContestError(Synced(row, now), now).None? <==> TakesBallots(row, now)
    ensures ContestError(Synced(row, now), now) == Some(ContestCancelled) <==> row.status == Cancelled
    ensures ContestError(Synced(row, now), now) == Some(NotOpen) <==> row.status != Cancelled && !TakesBallots(row, now)
    ensures TakesBallots(row, now) ==> Synced(row, now) == row.(status := Open)
    ensures Synced(row, now).system == row.system
  {
  }

  lemma {:induction false} IndexIs(text: string, k: Token)
    ensures IndexOf(text) == k <==> IsLowerOf(k.text, text)
  {
    if IsLowerOf(k.text, text) {
      assert Lower(text) == k.text;
    }
  }

  /** Two spellings of a text lead to the same token, and two generated texts never do. */
  lemma {:induction false} CaseDoesNotMatter(a: string, b: string, low: string)
    requires IsLowerOf(low, a) && IsLowerOf(low, b)
    ensures IndexOf(a) == IndexOf(b)
  {
    IndexIs(a, Token(low));
    IndexIs(b, Token(low));
  }

  lemma {:induction false} GeneratedTextsAreLower(a: Generated)
    ensures IndexOf(a) == Token(a)
  {
    forall i | 0 <= i < |a| ensures !('A' <= a[i] <= 'Z') {
    }
    IndexIs(a, Token(a));
  }

  lemma {:induction false} PayloadCheck(system: System, req: CastRequest)
    ensures PayloadError(system, req).None? <==> IsFilledIn(system, req)
    ensures PayloadError(system, req) == Some(CandidateRequired) <==> system == Fptp && req.candidate.None?
    ensures PayloadError(system, req) == Some(ConstituencyRequired)
            <==> system == Fptp && req.candidate.Some? && req.constituency.None?
    ensures PayloadError(system, req) == Some(CandidateOrPartyRequired)
            <==> system == Ams && req.candidate.None? && req.party.None?
    ensures PayloadError(system, req) == Some(PreferencesRequired)
            <==> system in {Stv, Av} && (req.ranked.None? || req.ranked.value == [])
    ensures PayloadError(system, req) == Some(RanksNotConsecutive)
            <==> system in {Stv, Av} && req.ranked.Some? && req.ranked.value != [] && !GivesAllRanks(req.ranked.value)
  {
    if req.ranked.Some? {
      ConsecutiveMeansAllRanks(req.ranked.value);
    }
  }

  lemma {:induction false} EntryIsThere(ledger: seq<LedgerEntry>, entry: LedgerEntry)
    ensures EntriesFor(ledger, entry) > 0 <==> entry in ledger
  {
    if |ledger| > 0 {
      EntryIsThere(ledger[..|ledger| - 1], entry);
      assert ledger == ledger[..|ledger| - 1] + [ledger[|ledger| - 1]];
    }
  }

  lemma {:induction false} TokenCheck(db: Tables, voter: Id, contest: Contest, place: Option<Id>, text: string)
    requires OneEntryEach(db.ledger)
    ensures TokenError(db, voter, contest, place, text).None?
            <==> LedgerEntry(voter, contest) !in db.ledger && TokenIsGood(db.tokens, text, contest, place)
    ensures TokenError(db, voter, contest, place, text) == Some(AlreadyVoted)
            <==> LedgerEntry(voter, contest) in db.ledger
  {
    var entry := LedgerEntry(voter, contest);
    EntryIsThere(db.ledger, entry);
    assert EntriesFor(db.ledger, entry) <= 1;
    forall k ensures IndexOf(text) == k <==> IsLowerOf(k.text, text) {
      IndexIs(text, k);
    }
    assert IsLowerOf(IndexOf(text).text, text);
  }

  /** What the token checks answer for a voter who has not voted, by the token that the text leads to. */
  lemma {:induction false} TokenErrors(db: Tables, voter: Id, contest: Contest, place: Option<Id>, text: string,
                                       k: Token)
    requires LedgerEntry(voter, contest) !in db.ledger && IsLowerOf(k.text, text)
    ensures var error := TokenError(db, voter, contest, place, text);
      && (error == Some(InvalidToken) <==> k !in db.tokens)
      && (error == Some(TokenUsed) <==> k in db.tokens && db.tokens[k].used)
      && (error == Some(WrongContest) <==> k in db.tokens && !db.tokens[k].used && db.tokens[k].contest != contest)
      && (error == Some(WrongConstituency)
          <==> k in db.tokens && !db.tokens[k].used && db.tokens[k].contest == contest
               && place.Some? && db.tokens[k].constituency != place)
  {
    IndexIs(text, k);
    EntryIsThere(db.ledger, LedgerEntry(voter, contest));
  }

  /** A row in step with the clock: open exactly when it takes ballots; drafts and cancelled rows as they
      were, and any other that is not open closed. */
  predicate IsInStep(before: ContestRow, after: ContestRow, now: Time) {
    && after == before.(status := after.status)
    && (after.status == Open <==> TakesBallots(before, now))
    && (before.status in {Draft, Cancelled} ==> after.status == before.status)
    && (before.status !in {Draft, Cancelled} ==> after.status in {Open, Closed})
  }

  /** Creating a contest and visiting one store its row in step with the clock, and change nothing else. */
  lemma {:induction false} StoredInStep(db: Tables, e: Event, contest: Contest)
    ensures var after := Apply(db, e);
      && (e.request.Create? && e.request.contest == contest ==>
            if contest in db.contests then after == db
            else contest in after.contests && IsInStep(e.request.row, after.contests[contest], e.now)
                 && after == db.(contests := db.contests[contest := after.contests[contest]]))
      && (e.request == Visit(contest) ==>
            if contest !in db.contests then after == db
            else contest in after.contests && IsInStep(db.contests[contest], after.contests[contest], e.now)
                 && after == db.(contests := db.contests[contest := after.contests[contest]]))
  {
  }

  // ---- Which ballots are accepted ----

  /** The conditions on a ballot, from the first to the last. */
  ghost predicate MeetsAll(db: Tables, req: CastRequest, facts: Facts, now: Time) {
    && Election(req.election) in db.contests
    && TakesBallots(db.contests[Election(req.election)], now)
    && facts.eligible
    && IsFilledIn(db.contests[Election(req.election)].system, req)
    && LedgerEntry(req.voter, Election(req.election)) !in db.ledger
    && TokenIsGood(db.tokens, req.text, Election(req.election), req.constituency)
    && NamesKnownCandidates(db.contests[Election(req.election)].system, req, facts.candidates)
  }

  /** A ballot in an election is accepted exactly when it meets all conditions. */
  lemma {:induction false} CastAcceptedExactlyWhen(db: Tables, req: CastRequest, facts: Facts, now: Time)
    requires Sound(db)
    ensures CastVote(db, req, facts, now).Done? <==> MeetsAll(db, req, facts, now)
  {
    AcceptedExactlyWhenChecked(db, req, facts, now);
    if Election(req.election) in db.contests {
      var row := db.contests[Election(req.election)];
      ContestCheck(row, now);
      PayloadCheck(row.system, req);
      TokenCheck(db, req.voter, Election(req.election), req.constituency, req.text);
    }
  }

  /** The first condition that fails decides the error; two errors never occur. */
  lemma {:induction false} CastErrors(db: Tables, req: CastRequest, facts: Facts, now: Time)
    requires Sound(db)
    ensures var outcome, contest := CastVote(db, req, facts, now), Election(req.election);
      && (outcome == Failed(ContestNotFound) <==> contest !in db.contests)
      && (contest in db.contests ==>
            var row := db.contests[contest];
            && (outcome == Failed(ContestCancelled) <==> row.status == Cancelled)
            && (outcome == Failed(NotOpen) <==> row.status != Cancelled && !TakesBallots(row, now))
            && (outcome == Failed(NotEligible) <==> TakesBallots(row, now) && !facts.eligible)
            && (outcome == Failed(AlreadyVoted)
                <==> TakesBallots(row, now) && facts.eligible && IsFilledIn(row.system, req)
                     && LedgerEntry(req.voter, contest) in db.ledger)
            && (outcome == Failed(CandidateNotFound)
                <==> TakesBallots(row, now) && facts.eligible && IsFilledIn(row.system, req)
                     && LedgerEntry(req.voter, contest) !in db.ledger
                     && TokenIsGood(db.tokens, req.text, contest, req.constituency)
                     && !NamesKnownCandidates(row.system, req, facts.candidates)))
      && outcome != Failed(OutsideWindow) && outcome != Failed(SeveralRows)
  {
    AcceptedExactlyWhenChecked(db, req, facts, now);
    if Election(req.election) in db.contests {
      var row := db.contests[Election(req.election)];
      ContestCheck(row, now);
      PayloadCheck(row.system, req);
      TokenCheck(db, req.voter, Election(req.election), req.constituency, req.text);
      assert EntriesFor(db.ledger, LedgerEntry(req.voter, Election(req.election))) <= 1;
    }
  }

  /** The same for referendums. */
  lemma {:induction false} ReferendumAcceptedExactlyWhen(db: Tables, req: ReferendumRequest, facts: Facts, now: Time)
    requires Sound(db)
    ensures CastReferendumVote(db, req, facts, now).Done?
            <==> && Referendum(req.referendum) in db.contests
                 && TakesBallots(db.contests[Referendum(req.referendum)], now)
                 && facts.eligible
                 && LedgerEntry(req.voter, Referendum(req.referendum)) !in db.ledger
                 && TokenIsGood(db.tokens, req.text, Referendum(req.referendum), None)
  {
    IncrementKeepsOneEach(db.tallies, Some(ReferendumKey(req)));
    if Referendum(req.referendum) in db.contests {
      ContestCheck(db.contests[Referendum(req.referendum)], now);
      TokenCheck(db, req.voter, Referendum(req.referendum), None, req.text);
    }
  }

  // ---- What an accepted ballot leaves behind ----

  /** The contest is open, the token spent and the voter in the ledger; every other row of these tables is
      as it was. */
  ghost predicate Recorded(db: Tables, after: Tables, contest: Contest, voter: Id, text: string) {
    && contest in db.contests
    && after.contests == db.contests[contest := db.contests[contest].(status := Open)]
    && after.ledger == db.ledger + [LedgerEntry(voter, contest)]
    && after.tokens.Keys == db.tokens.Keys
    && forall k :: k in db.tokens ==>
         after.tokens[k] == if IsLowerOf(k.text, text) then db.tokens[k].(used := true) else db.tokens[k]
  }

  lemma {:induction false} CastIsRecorded(db: Tables, req: CastRequest, facts: Facts, now: Time)
    requires CastVote(db, req, facts, now).Done?
    ensures Recorded(db, CastVote(db, req, facts, now).tables, Election(req.election), req.voter, req.text)
    ensures CastVote(db, req, facts, now).tables.referendumVotes == db.referendumVotes
  {
    ContestCheck(db.contests[Election(req.election)], now);
    forall k ensures IndexOf(req.text) == k <==> IsLowerOf(k.text, req.text) {
      IndexIs(req.text, k);
    }
  }

  lemma {:induction false} ReferendumIsRecorded(db: Tables, req: ReferendumRequest, facts: Facts, now: Time)
    requires CastReferendumVote(db, req, facts, now).Done?
    ensures var after := CastReferendumVote(db, req, facts, now).tables;
      && Recorded(db, after, Referendum(req.referendum), req.voter, req.text)
      && after.votes == db.votes
      && after.referendumVotes == db.referendumVotes + [ReferendumVote(req.referendum, req.choice, req.text, now)]
  {
    ContestCheck(db.contests[Referendum(req.referendum)], now);
    forall k ensures IndexOf(req.text) == k <==> IsLowerOf(k.text, req.text) {
      IndexIs(req.text, k);
    }
  }

  // ---- The vote rows ----

  /** Under first past the post one row, for the candidate. */
  lemma {:induction false} FptpRow(db: Tables, req: CastRequest, facts: Facts, now: Time)
    requires CastVote(db, req, facts, now).Done? && db.contests[Election(req.election)].system == Fptp
    ensures CastVote(db, req, facts, now).tables.votes
            == db.votes + [Vote(req.election, req.constituency, req.candidate, None, None, req.text, now)]
  {
  }

  /** Under the Additional Member System a row for the candidate if one is named, and then one for the list
      if one is named, told from the first by its text. */
  lemma {:induction false} AmsRows(db: Tables, req: CastRequest, facts: Facts, now: Time)
    requires CastVote(db, req, facts, now).Done? && db.contests[Election(req.election)].system == Ams
    ensures var own := Vote(req.election, req.constituency, req.candidate, None, None, req.text, now);
      var list := Vote(req.election, req.constituency, None, req.party, None, req.text, now);
      var votes := CastVote(db, req, facts, now).tables.votes;
      && (req.candidate.Some? && req.party.None? ==> votes == db.votes + [own])
      && (req.candidate.None? && req.party.Some? ==> votes == db.votes + [list])
      && (req.candidate.Some? && req.party.Some? ==>
            votes == db.votes + [own, list.(hash := req.text + ":list")])
  {
    if req.candidate.Some? && req.party.Some? {
      var own := Vote(req.election, req.constituency, req.candidate, None, None, req.text, now);
      var list := Vote(req.election, req.constituency, None, req.party, None, req.text + ":list", now);
      assert [own] + [list] == [own, list];
    }
  }

  lemma {:induction false} RankedRowAt(req: CastRequest, prefs: seq<Preference>, now: Time, i: nat)
    requires i < |prefs|
    ensures |RankedVotes(req, prefs, now)| == |prefs|
    ensures RankedVotes(req, prefs, now)[i]
            == Vote(req.election, req.constituency, Some(prefs[i].candidate), None, Some(prefs[i].rank),
                    req.text + ":rank" + Digits(prefs[i].rank), now)
  {
    if i < |prefs| - 1 {
      RankedRowAt(req, prefs[..|prefs| - 1], now, i);
    } else if |prefs| > 1 {
      RankedRowAt(req, prefs[..|prefs| - 1], now, 0);
    }
  }

  /** Under the two ranked systems one row per preference, in the order listed, marked with its rank in
      decimal. */
  lemma {:induction false} RowPerPreference(db: Tables, req: CastRequest, facts: Facts, now: Time, i: nat)
    requires CastVote(db, req, facts, now).Done? && db.contests[Election(req.election)].system in {Stv, Av}
    ensures req.ranked.Some?
    ensures var after, prefs := CastVote(db, req, facts, now).tables, req.ranked.value;
      && |after.votes| == |db.votes| + |prefs| && db.votes <= after.votes
      && (i < |prefs| ==>
            after.votes[|db.votes| + i]
            == Vote(req.election, req.constituency, Some(prefs[i].candidate), None, Some(prefs[i].rank),
                    req.text + ":rank" + Digits(prefs[i].rank), now))
  {
    PayloadCheck(db.contests[Election(req.election)].system, req);
    ContestCheck(db.contests[Election(req.election)], now);
    RankedRowAt(req, req.ranked.value, now, 0);
    if i < |req.ranked.value| {
      RankedRowAt(req, req.ranked.value, now, i);
    }
  }

  // ---- Issuing tokens ----

  /** No value repeats, and none is the text of a stored token. */
  ghost predicate AreFresh(tokens: map<Token, BallotToken>, values: seq<Generated>) {
    && (forall i :: 0 <= i < |values| ==> Token(values[i]) !in tokens)
    && forall i, j :: 0 <= i < j < |values| ==> values[i] != values[j]
  }

  lemma {:induction false} FreshLast(tokens: map<Token, BallotToken>, values: seq<Generated>)
    requires |values| > 0
    ensures var n := |values| - 1;
      AreFresh(tokens, values)
      <==> AreFresh(tokens, values[..n]) && Token(values[n]) !in tokens && values[n] !in values[..n]
  {
  }

  lemma {:induction false} NewLast(tokens: map<Token, BallotToken>, values: seq<Generated>)
    requires |values| > 0
    ensures var n := |values| - 1;
      AllNew(tokens, values)
      <==> AllNew(tokens, values[..n]) && Token(values[n]) !in tokens && values[n] !in values[..n]
  {
    forall i | 0 <= i < |values| ensures IndexOf(values[i]) == Token(values[i]) {
      GeneratedTextsAreLower(values[i]);
    }
  }

  lemma {:induction false} AllNewMeansFresh(tokens: map<Token, BallotToken>, values: seq<Generated>)
    ensures AllNew(tokens, values) <==> AreFresh(tokens, values)
  {
    if |values| > 0 {
      AllNewMeansFresh(tokens, values[..|values| - 1]);
      NewLast(tokens, values);
      FreshLast(tokens, values);
    }
  }

  /** A batch is issued exactly when the contest is stored as open, no value repeats and none is stored
      already; then one unused token per value is added, for this contest and constituency. */
  lemma {:induction false} IssuedExactlyWhen(db: Tables, contest: Contest, place: Option<Id>, values: seq<Generated>)
    ensures IssueTokens(db, contest, place, values).Done?
            <==> contest in db.contests && db.contests[contest].status == Open && AreFresh(db.tokens, values)
    ensures IssueTokens(db, contest, place, values) == Failed(ContestNotFound) <==> contest !in db.contests
    ensures IssueTokens(db, contest, place, values) == Failed(NotOpen)
            <==> contest in db.contests && db.contests[contest].status != Open
  {
    AllNewMeansFresh(db.tokens, values);
  }

  lemma {:induction false} IssuedTokensAre(db: Tables, contest: Contest, place: Option<Id>, values: seq<Generated>)
    requires IssueTokens(db, contest, place, values).Done?
    ensures var after := IssueTokens(db, contest, place, values).tables;
      && after == db.(tokens := after.tokens)
      && (forall k :: k in after.tokens <==> k in db.tokens || k.text in values)
      && (forall k :: k in db.tokens ==> after.tokens[k] == db.tokens[k])
      && (forall i :: 0 <= i < |values| ==> Token(values[i]) in after.tokens
                                            && after.tokens[Token(values[i])] == BallotToken(contest, place, false))
  {
    AllNewMeansFresh(db.tokens, values);
    var token := BallotToken(contest, place, false);
    forall i | 0 <= i < |values| ensures IndexOf(values[i]) == Token(values[i]) {
      GeneratedTextsAreLower(values[i]);
    }
    forall k
      ensures k in VotingTables.Issued(db.tokens, values, token) <==> k in db.tokens || k.text in values
      ensures k in VotingTables.Issued(db.tokens, values, token) ==>
        VotingTables.Issued(db.tokens, values, token)[k] == if k.text in values then token else db.tokens[k]
    {
      VotingDatabase.IssuedKeys(db.tokens, values, token, k);
    }
  }
}
