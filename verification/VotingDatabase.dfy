/** The requests on the voting tables as the services perform them, step by step, on the stored
    rows. A request that raises an error leaves every table as it was. */
module VotingDatabase {
  import opened Ballots
  import opened Records
  import opened RankedRows
  import opened VotingWindow
  import opened VotingTables

  class Database {
    var contests: map<Contest, ContestRow>
    var tokens: map<Token, BallotToken>
    var votes: seq<Vote>
    var referendumVotes: seq<ReferendumVote>
    var ledger: seq<LedgerEntry>
    var tallies: seq<Tally>

    function State(): Tables
      reads this
    {
      Tables(contests, tokens, votes, referendumVotes, ledger, tallies)
    }

    constructor ()
      ensures State() == Tables(map[], map[], [], [], [], [])
    {
      contests, tokens, votes, referendumVotes, ledger, tallies := map[], map[], [], [], [], [];
    }

    /** Puts every table back, as the end of a failed transaction does. */
    method Rollback(saved: Tables)
      modifies this
      ensures State() == saved
    {
      contests, tokens, votes := saved.contests, saved.tokens, saved.votes;
      referendumVotes, ledger, tallies := saved.referendumVotes, saved.ledger, saved.tallies;
    }

    // ---- Contests ----

    /** `sync_election_status_with_voting_schedule`: persists a status the schedule disagrees with. */
    method Sync(contest: Contest, now: Time)
      requires contest in contests
      modifies this
      ensures State() == old(State()).(contests := old(contests)[contest := Synced(old(contests)[contest], now)])
    {
      var row := contests[contest];
      if !row.status.Cancelled? && !row.status.Draft? {
        var desired := ImpliedStatus(now, row.opens, row.closes);
        if desired.Some? && row.status != desired.value {
          row := row.(status := desired.value);
        }
      }
      contests := contests[contest := row];
    }

    /** `update_election` and `update_referendum`. */
    method Update(contest: Contest, dto: VotingWindow.Update, now: Time) returns (error: Option<UpdateError>)
      modifies this
      ensures contest !in old(contests) ==> error == Some(NotFound) && State() == old(State())
      ensures contest in old(contests) ==>
        match UpdateRow(old(contests)[contest], dto, now)
        case Accepted(row) => error == None && State() == old(State()).(contests := old(contests)[contest := row])
        case Rejected(e) => error == Some(e) && State() == old(State())
      ensures error == None ==>
        contest in old(contests) && contest in contests && Carries(contests[contest], old(contests)[contest], dto, now)
    {
      if contest !in contests {
        return Some(NotFound);
      }
      if UpdateRow(contests[contest], dto, now).Accepted? {
        UpdateStoresWhatIsAsked(contests[contest], dto, now);
      }
      var current := contests[contest];
      var isDraft := current.status.Draft?;
      if !isDraft && (dto.system.Some? || dto.otherDraftColumns || dto.constituencies) {
        return Some(DraftOnlyField);
      }
      var closes := dto.closes;
      if dto.status.Some? {
        if !MayBecome(current.status, dto.status.value) {
          return Some(BadTransition);
        }
        if dto.status.value.Closed? && current.closes.Some? && current.closes.value > now {
          closes := Some(now);
        }
      }
      var reopening := dto.status == Some(Open) && current.status.Closed?;
      if dto.status.None? && dto.opens.None? && closes.None?
        && !(isDraft && (dto.system.Some? || dto.otherDraftColumns)) {
        return Some(NothingToUpdate);
      }
      var updated := current;
      if dto.status.Some? { updated := updated.(status := dto.status.value); }
      if dto.opens.Some? { updated := updated.(opens := dto.opens); }
      if closes.Some? { updated := updated.(closes := closes); }
      if isDraft && dto.system.Some? { updated := updated.(system := dto.system.value); }
      if reopening && updated.closes.Some? && updated.closes.value <= now {
        updated := updated.(closes := None);
      }
      contests := contests[contest := updated];
      if dto.status.None? && !isDraft {
        Sync(contest, now);
      }
      error := None;
    }

    // ---- Tokens ----

    /** Issues one unused token per generated value. */
    method Issue(contest: Contest, constituency: Option<Id>, values: seq<Generated>) returns (error: Option<Error>)
      modifies this
      ensures match IssueTokens(old(State()), contest, constituency, values)
              case Done(db) => error == None && State() == db
              case Failed(e) => error == Some(e) && State() == old(State())
    {
      if contest !in contests {
        return Some(ContestNotFound);
      }
      if !contests[contest].status.Open? {
        return Some(NotOpen);
      }
      var saved := State();
      var models := BallotToken(contest, constituency, false);
      for i := 0 to |values|
        invariant AllNew(saved.tokens, values[..i])
        invariant State() == saved.(tokens := VotingTables.Issued(saved.tokens, values[..i], models))
      {
        assert values[..i + 1][..i] == values[..i];
        NextIsNew(saved.tokens, values, i, models);
        if IndexOf(values[i]) in tokens {
          NotAllNew(saved.tokens, values, i + 1);
          Rollback(saved);
          return Some(DuplicateToken);
        }
        tokens := tokens[IndexOf(values[i]) := models];
      }
      assert values[..|values|] == values;
      error := None;
    }

    // ---- Tallies ----

    /** `increment_vote_count` and `increment_referendum_vote_count`. */
    method Increment(key: TallyKey) returns (error: Option<Error>)
      modifies this`tallies
      ensures match Incremented(old(tallies), Some(key))
              case Some(t) => error == None && tallies == t
              case None => error == Some(SeveralRows) && tallies == old(tallies)
    {
      var found := 0;
      for i := 0 to |tallies|
        invariant found == TalliesFor(tallies[..i], key)
      {
        assert tallies[..i + 1][..i] == tallies[..i];
        if tallies[i].key == key {
          found := found + 1;
        }
      }
      assert tallies[..|tallies|] == tallies;
      if found > 1 {
        return Some(SeveralRows);
      }
      if found == 0 {
        tallies := tallies + [Tally(key, 1)];
        return None;
      }
      var updated: seq<Tally> := [];
      for i := 0 to |tallies|
        invariant updated == Bumped(tallies[..i], key)
      {
        assert tallies[..i + 1][..i] == tallies[..i];
        var t := tallies[i];
        updated := updated + [if t.key == key then Tally(key, t.count + 1) else t];
      }
      assert tallies[..|tallies|] == tallies;
      tallies := updated;
      error := None;
    }

    // ---- Casting ----

    /** Marks the token used, writes the ledger entry and, last, counts the ballot. */
    method Consume(contest: Contest, voter: Id, text: string, key: Option<TallyKey>) returns (error: Option<Error>)
      requires contest in contests && IndexOf(text) in tokens
      modifies this
      ensures match Commit(old(State()), contest, old(contests)[contest], voter, text, key)
              case Done(db) => error == None && State() == db
              case Failed(e) => error == Some(e)
    {
      tokens := tokens[IndexOf(text) := tokens[IndexOf(text)].(used := true)];
      ledger := ledger + [LedgerEntry(voter, contest)];
      error := None;
      if key.Some? {
        error := Increment(key.value);
      }
      assert contests == old(contests)[contest := old(contests)[contest]];
    }

    /** Writes one vote row per preference, checking each candidate as it goes. */
    method WriteRanked(req: CastRequest, prefs: seq<Preference>, candidates: set<Id>, now: Time) returns (ok: bool)
      modifies this`votes
      ensures ok <==> forall i :: 0 <= i < |prefs| ==> prefs[i].candidate in candidates
      ensures ok ==> votes == old(votes) + RankedVotes(req, prefs, now)
    {
      for i := 0 to |prefs|
        invariant votes == old(votes) + RankedVotes(req, prefs[..i], now)
        invariant forall k :: 0 <= k < i ==> prefs[k].candidate in candidates
      {
        assert prefs[..i + 1][..i] == prefs[..i];
        var p := prefs[i];
        if p.candidate !in candidates {
          return false;
        }
        votes := votes + [Vote(req.election, req.constituency, Some(p.candidate), None, Some(p.rank),
                               Marked(req.text, p.rank), now)];
      }
      assert prefs[..|prefs|] == prefs;
      ok := true;
    }

    /** Writes the vote rows of an AMS ballot: one for the candidate, one for the party. */
    method WriteAms(req: CastRequest, now: Time)
      modifies this`votes
      ensures votes == old(votes) + NewVotes(Ams, req, now)
    {
      if req.candidate.Some? {
        votes := votes + [Vote(req.election, req.constituency, req.candidate, None, None, req.text, now)];
      }
      if req.party.Some? {
        var text := if req.candidate.Some? then req.text + ":list" else req.text;
        votes := votes + [Vote(req.election, req.constituency, None, req.party, None, text, now)];
      }
    }

    method WriteVotes(system: System, req: CastRequest, candidates: set<Id>, now: Time) returns (ok: bool)
      requires PayloadError(system, req).None? && (req.candidate.Some? ==> req.candidate.value in candidates)
      modifies this`votes
      ensures ok <==> CandidatesExist(system, req, candidates)
      ensures ok ==> votes == old(votes) + NewVotes(system, req, now)
    {
      ok := true;
      if system.Stv? || system.Av? {
        ok := WriteRanked(req, req.ranked.value, candidates, now);
      } else if system.Ams? {
        WriteAms(req, now);
      } else {
        votes := votes + [Vote(req.election, req.constituency, req.candidate, None, None, req.text, now)];
      }
    }

    /** `cast_vote`. */
    method Cast(req: CastRequest, facts: Facts, now: Time) returns (error: Option<Error>)
      modifies this
      ensures match CastVote(old(State()), req, facts, now)
              case Done(db) => error == None && State() == db
              case Failed(e) => error == Some(e) && State() == old(State())
    {
      var saved := State();
      var contest := Election(req.election);
      if contest !in contests {
        return Some(ContestNotFound);
      }
      Sync(contest, now);
      var row := contests[contest];
      error := First(ContestError(row, now),
               First(if facts.eligible then None else Some(NotEligible),
               First(PayloadError(row.system, req),
                     TokenError(saved, req.voter, contest, req.constituency, req.text))));
      if error.Some? {
        Rollback(saved);
        return;
      }
      if req.candidate.Some? && req.candidate.value !in facts.candidates {
        Rollback(saved);
        return Some(CandidateNotFound);
      }
      var ok := WriteVotes(row.system, req, facts.candidates, now);
      if !ok {
        Rollback(saved);
        return Some(CandidateNotFound);
      }
      error := Consume(contest, req.voter, req.text, KeyFor(row.system, req));
      if error.Some? {
        Rollback(saved);
      }
    }

    /** `cast_referendum_vote`. */
    method CastReferendum(req: ReferendumRequest, facts: Facts, now: Time) returns (error: Option<Error>)
      modifies this
      ensures match CastReferendumVote(old(State()), req, facts, now)
              case Done(db) => error == None && State() == db
              case Failed(e) => error == Some(e) && State() == old(State())
    {
      var saved := State();
      var contest := Referendum(req.referendum);
      if contest !in contests {
        return Some(ContestNotFound);
      }
      Sync(contest, now);
      error := First(ContestError(contests[contest], now),
               First(if facts.eligible then None else Some(NotEligible),
                     TokenError(saved, req.voter, contest, None, req.text)));
      if error.Some? {
        Rollback(saved);
        return;
      }
      referendumVotes := referendumVotes + [ReferendumVote(req.referendum, req.choice, req.text, now)];
      error := Consume(contest, req.voter, req.text, Some(ReferendumKey(req)));
      if error.Some? {
        Rollback(saved);
      }
    }
  }

  lemma {:induction false} IssuedKeys(tokens: map<Token, BallotToken>, values: seq<Generated>, token: BallotToken,
                                      k: Token)
    ensures k in VotingTables.Issued(tokens, values, token)
            <==> k in tokens || exists i :: 0 <= i < |values| && IndexOf(values[i]) == k
    ensures k in VotingTables.Issued(tokens, values, token) ==>
      VotingTables.Issued(tokens, values, token)[k]
      == if exists i :: 0 <= i < |values| && IndexOf(values[i]) == k then token else tokens[k]
  {
    if |values| > 0 {
      IssuedKeys(tokens, values[..|values| - 1], token, k);
    }
  }

  /** A value may be issued next exactly when no token has its index yet. */
  lemma {:induction false} NextIsNew(tokens: map<Token, BallotToken>, values: seq<Generated>, i: nat,
                                     token: BallotToken)
    requires i < |values| && AllNew(tokens, values[..i])
    ensures AllNew(tokens, values[..i + 1]) <==> IndexOf(values[i]) !in VotingTables.Issued(tokens, values[..i], token)
  {
    assert values[..i + 1][..i] == values[..i];
    IssuedKeys(tokens, values[..i], token, IndexOf(values[i]));
  }

  lemma {:induction false} NotAllNew(tokens: map<Token, BallotToken>, values: seq<Generated>, i: nat)
    requires i <= |values| && !AllNew(tokens, values[..i])
    ensures !AllNew(tokens, values)
    decreases |values| - i
  {
    if i < |values| {
      assert values[..i + 1][..i] == values[..i];
      NotAllNew(tokens, values, i + 1);
    } else {
      assert values[..i] == values;
    }
  }
}
