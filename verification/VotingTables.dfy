/** The state that voting works on, and what each request does to it, as functions: issuing tokens
    (backend/app/service/ballot_service.py), casting (backend/app/service/voting_service.py) and
    the tally index (backend/app/repository/tally_result_repo.py). */
module VotingTables {
  import opened Ballots
  import opened Records
  import opened RankedRows
  import opened VotingWindow

  /** One value per table. Tokens are found by the blind index of their text, which is computed
      from its lower-case form. */
  datatype Tables = Tables(contests: map<Contest, ContestRow>, tokens: map<Token, BallotToken>,
                           votes: seq<Vote>, referendumVotes: seq<ReferendumVote>,
                           ledger: seq<LedgerEntry>, tallies: seq<Tally>)

  datatype Error =
    | ContestNotFound | ContestCancelled | NotOpen | OutsideWindow | NotEligible
    | CandidateRequired | ConstituencyRequired | CandidateOrPartyRequired | PreferencesRequired | RanksNotConsecutive
    | AlreadyVoted | InvalidToken | TokenUsed | WrongContest | WrongConstituency | CandidateNotFound
    | DuplicateToken | SeveralRows

  datatype Outcome = Done(tables: Tables) | Failed(error: Error)

  // ---- Token text ----

  function LowerChar(c: char): char {
    if 'A' <= c <= 'Z' then (c as int + 32) as char else c
  }

  function Lower(s: string): (r: string)
    ensures |r| == |s| && forall i :: 0 <= i < |s| ==> r[i] == LowerChar(s[i])
  {
    if |s| == 0 then "" else Lower(s[..|s| - 1]) + [LowerChar(s[|s| - 1])]
  }

  /** The blind index under which a token with this text is stored. */
  function IndexOf(text: string): Token {
    Token(Lower(text))
  }

  /** The text of a generated UUID: lower-case hexadecimal digits and dashes. */
  predicate UuidText(s: string) {
    forall i :: 0 <= i < |s| ==> s[i] == '-' || '0' <= s[i] <= '9' || 'a' <= s[i] <= 'f'
  }

  type Generated = s: string | UuidText(s) witness ""

  // ---- Issuing tokens ----

  function Issued(tokens: map<Token, BallotToken>, values: seq<Generated>,
                  token: BallotToken): map<Token, BallotToken> {
    if |values| == 0 then tokens
    else Issued(tokens, values[..|values| - 1], token)[IndexOf(values[|values| - 1]) := token]
  }

  /** The unique index rejects a batch that repeats a token, within itself or with one stored. */
  predicate AllNew(tokens: map<Token, BallotToken>, values: seq<Generated>) {
    |values| == 0 ||
    (AllNew(tokens, values[..|values| - 1])
     && IndexOf(values[|values| - 1]) !in tokens
     && forall i :: 0 <= i < |values| - 1 ==> IndexOf(values[i]) != IndexOf(values[|values| - 1]))
  }

  /** The issuing services check the stored status; they do not sync it. */
  function IssueTokens(db: Tables, contest: Contest, constituency: Option<Id>, values: seq<Generated>): Outcome {
    if contest !in db.contests then Failed(ContestNotFound)
    else if !db.contests[contest].status.Open? then Failed(NotOpen)
    else if !AllNew(db.tokens, values) then Failed(DuplicateToken)
    else Done(db.(tokens := Issued(db.tokens, values, BallotToken(contest, constituency, false))))
  }

  // ---- The tally index ----

  function TalliesFor(tallies: seq<Tally>, key: TallyKey): nat {
    if |tallies| == 0 then 0
    else TalliesFor(tallies[..|tallies| - 1], key) + if tallies[|tallies| - 1].key == key then 1 else 0
  }

  /** The update of every row with this key. */
  function Bumped(tallies: seq<Tally>, key: TallyKey): seq<Tally> {
    if |tallies| == 0 then []
    else
      var t := tallies[|tallies| - 1];
      Bumped(tallies[..|tallies| - 1], key) + [if t.key == key then Tally(key, t.count + 1) else t]
  }

  /** Select, then update the one row there is or insert the first; nothing when no key is given. */
  function Incremented(tallies: seq<Tally>, key: Option<TallyKey>): Option<seq<Tally>> {
    if key.None? then Some(tallies)
    else if TalliesFor(tallies, key.value) == 0 then Some(tallies + [Tally(key.value, 1)])
    else if TalliesFor(tallies, key.value) == 1 then Some(Bumped(tallies, key.value))
    else None
  }

  function EntriesFor(ledger: seq<LedgerEntry>, entry: LedgerEntry): nat {
    if |ledger| == 0 then 0
    else EntriesFor(ledger[..|ledger| - 1], entry) + if ledger[|ledger| - 1] == entry then 1 else 0
  }

  // ---- Casting ----

  /** A request to vote in an election. */
  datatype CastRequest = CastRequest(voter: Id, election: Id, constituency: Option<Id>, candidate: Option<Id>,
                                     party: Option<Id>, ranked: Option<seq<Preference>>, text: string)

  datatype ReferendumRequest = ReferendumRequest(voter: Id, referendum: Id, choice: Choice, text: string)

  /** What the rest of the database says about a request: whether the voter exists, is old enough
      and may take part from where they live; and which candidates exist. */
  datatype Facts = Facts(eligible: bool, candidates: set<Id>)

  /** `_validate_ballot_payload`. */
  function PayloadError(system: System, req: CastRequest): Option<Error> {
    match system
    case Fptp =>
      if req.candidate.None? then Some(CandidateRequired)
      else if req.constituency.None? then Some(ConstituencyRequired)
      else None
    case Ams =>
      if req.candidate.None? && req.party.None? then Some(CandidateOrPartyRequired) else None
    case _ =>
      if req.ranked.None? || |req.ranked.value| == 0 then Some(PreferencesRequired)
      else if !ConsecutiveFromOne(req.ranked.value) then Some(RanksNotConsecutive)
      else None
  }

  /** The checks on the contest: stored status after sync, then the window. */
  function ContestError(row: ContestRow, now: Time): Option<Error> {
    if row.status.Cancelled? then Some(ContestCancelled)
    else if !row.status.Open? then Some(NotOpen)
    else if !WithinWindow(now, row.opens, row.closes) then Some(OutsideWindow)
    else None
  }

  /** The checks on the voter's ledger and on the ballot token. */
  function TokenError(db: Tables, voter: Id, contest: Contest, constituency: Option<Id>, text: string): Option<Error> {
    if EntriesFor(db.ledger, LedgerEntry(voter, contest)) > 1 then Some(SeveralRows)
    else if EntriesFor(db.ledger, LedgerEntry(voter, contest)) == 1 then Some(AlreadyVoted)
    else if IndexOf(text) !in db.tokens then Some(InvalidToken)
    else
      var token := db.tokens[IndexOf(text)];
      if token.used then Some(TokenUsed)
      else if token.contest != contest then Some(WrongContest)
      else if constituency.Some? && token.constituency != constituency then Some(WrongConstituency)
      else None
  }

  predicate CandidatesExist(system: System, req: CastRequest, candidates: set<Id>) {
    && (req.candidate.Some? ==> req.candidate.value in candidates)
    && (system.Stv? || system.Av? ==> req.ranked.Some? ==>
          forall i :: 0 <= i < |req.ranked.value| ==> req.ranked.value[i].candidate in candidates)
  }

  /** One row per preference. */
  function RankedVotes(req: CastRequest, prefs: seq<Preference>, now: Time): seq<Vote> {
    if |prefs| == 0 then []
    else
      var p := prefs[|prefs| - 1];
      RankedVotes(req, prefs[..|prefs| - 1], now)
      + [Vote(req.election, req.constituency, Some(p.candidate), None, Some(p.rank), Marked(req.text, p.rank), now)]
  }

  /** The vote rows a request is written as. */
  function NewVotes(system: System, req: CastRequest, now: Time): seq<Vote> {
    match system
    case Fptp => [Vote(req.election, req.constituency, req.candidate, None, None, req.text, now)]
    case Ams =>
      (if req.candidate.Some?
       then [Vote(req.election, req.constituency, req.candidate, None, None, req.text, now)] else [])
      + (if req.party.Some?
         then [Vote(req.election, req.constituency, None, req.party, None,
                    if req.candidate.Some? then req.text + ":list" else req.text, now)] else [])
    case _ => if req.ranked.Some? then RankedVotes(req, req.ranked.value, now) else []
  }

  function CandidateKey(req: CastRequest, candidate: Option<Id>): TallyKey {
    TallyKey(Election(req.election), req.constituency, candidate, None, None)
  }

  /** The tally a request adds to: for ranked ballots that of the preference listed first. */
  function KeyFor(system: System, req: CastRequest): Option<TallyKey> {
    match system
    case Fptp => Some(CandidateKey(req, req.candidate))
    case Ams => if req.candidate.Some? then Some(CandidateKey(req, req.candidate)) else None
    case _ =>
      if req.ranked.Some? && |req.ranked.value| > 0
      then Some(CandidateKey(req, Some(req.ranked.value[0].candidate))) else None
  }

  function ReferendumKey(req: ReferendumRequest): TallyKey {
    TallyKey(Referendum(req.referendum), None, None, None, Some(req.choice))
  }

  /** What every accepted ballot does besides its vote rows: the contest row as synced, the token
      used, one ledger entry, one tally. */
  function Commit(db: Tables, contest: Contest, row: ContestRow, voter: Id, text: string,
                  key: Option<TallyKey>): Outcome
    requires IndexOf(text) in db.tokens
  {
    var tallies := Incremented(db.tallies, key);
    if tallies.None? then Failed(SeveralRows)
    else Done(db.(contests := db.contests[contest := row],
                  tokens := db.tokens[IndexOf(text) := db.tokens[IndexOf(text)].(used := true)],
                  ledger := db.ledger + [LedgerEntry(voter, contest)],
                  tallies := tallies.value))
  }

  function First(a: Option<Error>, b: Option<Error>): Option<Error> {
    if a.Some? then a else b
  }

  function CastError(db: Tables, req: CastRequest, facts: Facts, now: Time): Option<Error> {
    if Election(req.election) !in db.contests then Some(ContestNotFound)
    else
      var row := Synced(db.contests[Election(req.election)], now);
      First(ContestError(row, now),
      First(if facts.eligible then None else Some(NotEligible),
      First(PayloadError(row.system, req),
      First(TokenError(db, req.voter, Election(req.election), req.constituency, req.text),
            if CandidatesExist(row.system, req, facts.candidates) then None else Some(CandidateNotFound)))))
  }

  /** `cast_vote`: a request that fails leaves no trace, its transaction being rolled back. */
  function CastVote(db: Tables, req: CastRequest, facts: Facts, now: Time): Outcome {
    var error := CastError(db, req, facts, now);
    if error.Some? then Failed(error.value)
    else
      var row := Synced(db.contests[Election(req.election)], now);
      Commit(db.(votes := db.votes + NewVotes(row.system, req, now)), Election(req.election), row,
             req.voter, req.text, KeyFor(row.system, req))
  }

  function ReferendumError(db: Tables, req: ReferendumRequest, facts: Facts, now: Time): Option<Error> {
    if Referendum(req.referendum) !in db.contests then Some(ContestNotFound)
    else
      First(ContestError(Synced(db.contests[Referendum(req.referendum)], now), now),
      First(if facts.eligible then None else Some(NotEligible),
            TokenError(db, req.voter, Referendum(req.referendum), None, req.text)))
  }

  /** `cast_referendum_vote`. */
  function CastReferendumVote(db: Tables, req: ReferendumRequest, facts: Facts, now: Time): Outcome {
    var error := ReferendumError(db, req, facts, now);
    if error.Some? then Failed(error.value)
    else
      Commit(db.(referendumVotes := db.referendumVotes + [ReferendumVote(req.referendum, req.choice, req.text, now)]),
             Referendum(req.referendum), Synced(db.contests[Referendum(req.referendum)], now),
             req.voter, req.text, Some(ReferendumKey(req)))
  }
}
