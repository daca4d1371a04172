/** The incremental tally against a recount of the vote rows. */
module TallyIndex {
  import opened Ballots
  import opened Records
  import opened RankedRows
  import opened VotingWindow
  import opened VotingTables
  import opened VotingRuns

  /** What the tally table says for a key. */
  function Tallied(tallies: seq<Tally>, key: TallyKey): nat {
    if |tallies| == 0 then 0
    else Tallied(tallies[..|tallies| - 1], key)
         + if tallies[|tallies| - 1].key == key then tallies[|tallies| - 1].count else 0
  }

  /** The vote row is a first preference, or an unranked vote, for the key's candidate. */
  predicate CountsUnder(v: Vote, key: TallyKey) {
    && v.candidate.Some?
    && key == TallyKey(Election(v.election), v.constituency, v.candidate, None, None)
    && (v.rank.None? || v.rank == Some(1))
  }

  function RecountVotes(votes: seq<Vote>, key: TallyKey): nat {
    if |votes| == 0 then 0
    else RecountVotes(votes[..|votes| - 1], key) + if CountsUnder(votes[|votes| - 1], key) then 1 else 0
  }

  function RecountReferendum(votes: seq<ReferendumVote>, key: TallyKey): nat {
    if |votes| == 0 then 0
    else
      var v := votes[|votes| - 1];
      RecountReferendum(votes[..|votes| - 1], key)
      + if key == TallyKey(Referendum(v.referendum), None, None, None, Some(v.choice)) then 1 else 0
  }

  /** The count taken from the stored vote rows alone. */
  function Recount(db: Tables, key: TallyKey): nat {
    RecountVotes(db.votes, key) + RecountReferendum(db.referendumVotes, key)
  }

  /** Every tally of the contest equals a recount. */
  ghost predicate Indexed(db: Tables, contest: Contest) {
    forall key: TallyKey :: key.contest == contest ==> Tallied(db.tallies, key) == Recount(db, key)
  }

  // ---- The effect of one increment ----

  lemma {:induction false} TalliedBump(tallies: seq<Tally>, key: TallyKey, other: TallyKey)
    ensures Tallied(Bumped(tallies, key), other)
            == Tallied(tallies, other) + if key == other then TalliesFor(tallies, key) else 0
  {
    if |tallies| > 0 {
      TalliedBump(tallies[..|tallies| - 1], key, other);
      assert Bumped(tallies, key)[..|Bumped(tallies, key)| - 1] == Bumped(tallies[..|tallies| - 1], key);
    }
  }

  lemma {:induction false} TalliedIncrement(tallies: seq<Tally>, key: Option<TallyKey>, other: TallyKey)
    requires Incremented(tallies, key).Some?
    ensures Tallied(Incremented(tallies, key).value, other) == Tallied(tallies, other)
            + if key == Some(other) then 1 else 0
  {
    if key.Some? {
      if TalliesFor(tallies, key.value) == 0 {
        assert (tallies + [Tally(key.value, 1)])[..|tallies|] == tallies;
      } else {
        TalliedBump(tallies, key.value, other);
      }
    }
  }

  // ---- The effect of the rows of one ballot ----

  lemma {:induction false} RecountConcat(a: seq<Vote>, b: seq<Vote>, key: TallyKey)
    ensures RecountVotes(a + b, key) == RecountVotes(a, key) + RecountVotes(b, key)
  {
    if |b| == 0 {
      assert a + b == a;
    } else {
      assert (a + b)[..|a + b| - 1] == a + b[..|b| - 1];
      RecountConcat(a, b[..|b| - 1], key);
    }
  }

  lemma {:induction false} RecountOne(v: Vote, key: TallyKey)
    ensures RecountVotes([v], key) == if CountsUnder(v, key) then 1 else 0
  {
    assert [v][..0] == [];
  }

  /** Of the rows of a ranked ballot, those with rank 1 count. */
  lemma {:induction false} RecountRanked(req: CastRequest, prefs: seq<Preference>, now: Time, key: TallyKey)
    requires key.candidate.Some?
    ensures RecountVotes(RankedVotes(req, prefs, now), key)
            == if key == CandidateKey(req, key.candidate)
              then multiset(prefs)[Preference(1, key.candidate.value)] else 0
  {
    if |prefs| > 0 {
      var n := |prefs| - 1;
      RecountRanked(req, prefs[..n], now, key);
      assert prefs == prefs[..n] + [prefs[n]];
      var row := Vote(req.election, req.constituency, Some(prefs[n].candidate), None, Some(prefs[n].rank),
                      Marked(req.text, prefs[n].rank), now);
      RecountConcat(RankedVotes(req, prefs[..n], now), [row], key);
      RecountOne(row, key);
    }
  }

  lemma {:induction false} RecountOfNobody(votes: seq<Vote>, key: TallyKey)
    requires key.candidate.None?
    ensures RecountVotes(votes, key) == 0
  {
    if |votes| > 0 {
      RecountOfNobody(votes[..|votes| - 1], key);
    }
  }

  /** Valid preferences give rank 1 to exactly one candidate, once. */
  lemma {:induction false} RankOneIsUnique(prefs: seq<Preference>, c: Id)
    requires ConsecutiveFromOne(prefs)
    ensures multiset(prefs)[Preference(1, c)] == if InRankOrder(prefs)[0] == c then 1 else 0
  {
    var s := SortByRank(prefs);
    assert s == [s[0]] + s[1..];
    assert multiset(prefs) == multiset{s[0]} + multiset(s[1..]);
    forall p | p in s[1..] ensures p != Preference(1, c) {
      var i :| 0 <= i < |s[1..]| && s[1..][i] == p;
      assert s[i + 1].rank == i + 2;
    }
  }

  /** The preference listed first in the request is the one ranked first. */
  predicate ListsFirstChoiceFirst(system: System, req: CastRequest)
    requires PayloadError(system, req).None?
  {
    system.Stv? || system.Av? ==> req.ranked.value[0].candidate == InRankOrder(req.ranked.value)[0]
  }

  /** The key that a recount of the ballot's rows adds to. */
  function RowsKey(system: System, req: CastRequest): Option<TallyKey>
    requires PayloadError(system, req).None?
  {
    if system.Stv? || system.Av? then Some(CandidateKey(req, Some(InRankOrder(req.ranked.value)[0])))
    else KeyFor(system, req)
  }

  lemma {:induction false} RowsCountUnderKey(system: System, req: CastRequest, now: Time, key: TallyKey)
    requires PayloadError(system, req).None?
    ensures RecountVotes(NewVotes(system, req, now), key) == if RowsKey(system, req) == Some(key) then 1 else 0
  {
    if key.candidate.None? {
      RecountOfNobody(NewVotes(system, req, now), key);
    } else {
      match system
      case Fptp =>
        RecountOne(Vote(req.election, req.constituency, req.candidate, None, None, req.text, now), key);
      case Ams =>
        AmsRowsCount(req, now, key);
      case _ =>
        RecountRanked(req, req.ranked.value, now, key);
        RankOneIsUnique(req.ranked.value, key.candidate.value);
    }
  }

  lemma {:induction false} AmsRowsCount(req: CastRequest, now: Time, key: TallyKey)
    ensures RecountVotes(NewVotes(Ams, req, now), key)
            == if req.candidate.Some? && key == CandidateKey(req, req.candidate) then 1 else 0
  {
    var own := Vote(req.election, req.constituency, req.candidate, None, None, req.text, now);
    var list := Vote(req.election, req.constituency, None, req.party, None,
                     if req.candidate.Some? then req.text + ":list" else req.text, now);
    var a := if req.candidate.Some? then [own] else [];
    var b := if req.party.Some? then [list] else [];
    assert NewVotes(Ams, req, now) == a + b;
    RecountConcat(a, b, key);
    RecountOne(own, key);
    RecountOne(list, key);
  }

  // ---- One accepted ballot ----

  /** What a committed ballot does to tally and recount under a key. */
  lemma {:induction false} BallotCounts(db: Tables, req: CastRequest, facts: Facts, now: Time, key: TallyKey)
    requires CastVote(db, req, facts, now).Done?
    ensures PayloadError(Synced(db.contests[Election(req.election)], now).system, req).None?
    ensures var system, after := Synced(db.contests[Election(req.election)], now).system,
    CastVote(db, req, facts, now).tables;
            && Tallied(after.tallies, key)
              == Tallied(db.tallies, key) + (if KeyFor(system, req) == Some(key) then 1 else 0)
            && Recount(after, key) == Recount(db, key) + if RowsKey(system, req) == Some(key) then 1 else 0
  {
    var system := Synced(db.contests[Election(req.election)], now).system;
    TalliedIncrement(db.tallies, KeyFor(system, req), key);
    RowsCountUnderKey(system, req, now, key);
    RecountConcat(db.votes, NewVotes(system, req, now), key);
  }

  /** An accepted ballot keeps the tally equal to a recount exactly when its first-listed preference
      is the one ranked first; the validator accepts the others too. */
  lemma {:induction false} BallotKeepsIndexExactlyWhenListedInOrder(db: Tables, req: CastRequest, facts: Facts,
                                                                    now: Time)
    requires Indexed(db, Election(req.election)) && CastVote(db, req, facts, now).Done?
    ensures PayloadError(Synced(db.contests[Election(req.election)], now).system, req).None?
    ensures Indexed(CastVote(db, req, facts, now).tables, Election(req.election))
            <==> ListsFirstChoiceFirst(Synced(db.contests[Election(req.election)], now).system, req)
  {
    var system, after := Synced(db.contests[Election(req.election)], now).system, CastVote(db, req, facts, now).tables;
    if ListsFirstChoiceFirst(system, req) {
      forall key: TallyKey | key.contest == Election(req.election)
        ensures Tallied(after.tallies, key) == Recount(after, key)
      {
        BallotCounts(db, req, facts, now, key);
      }
    } else {
      var key := KeyFor(system, req).value;
      BallotCounts(db, req, facts, now, key);
      assert Tallied(after.tallies, key) != Recount(after, key);
    }
  }

  /** A ballot never touches another contest's tallies or rows. */
  lemma {:induction false} OtherContestsStayIndexed(db: Tables, req: CastRequest, facts: Facts, now: Time,
                                                    contest: Contest)
    requires Indexed(db, contest) && CastVote(db, req, facts, now).Done? && contest != Election(req.election)
    ensures Indexed(CastVote(db, req, facts, now).tables, contest)
  {
    var after := CastVote(db, req, facts, now).tables;
    forall key: TallyKey | key.contest == contest ensures Tallied(after.tallies, key) == Recount(after, key) {
      BallotCounts(db, req, facts, now, key);
    }
  }

  lemma {:induction false} ReferendumKeepsIndex(db: Tables, req: ReferendumRequest, facts: Facts, now: Time,
                                                contest: Contest)
    requires Indexed(db, contest) && CastReferendumVote(db, req, facts, now).Done?
    ensures Indexed(CastReferendumVote(db, req, facts, now).tables, contest)
  {
    var after := CastReferendumVote(db, req, facts, now).tables;
    forall key: TallyKey | key.contest == contest ensures Tallied(after.tallies, key) == Recount(after, key) {
      TalliedIncrement(db.tallies, Some(ReferendumKey(req)), key);
      assert after.referendumVotes[..|db.referendumVotes|] == db.referendumVotes;
      assert Tallied(db.tallies, key) == Recount(db, key);
    }
  }

  // ---- Whole runs ----

  /** If the request is a ballot accepted for the contest, it lists its first choice first. */
  ghost predicate ListedInOrder(db: Tables, e: Event, contest: Contest) {
    e.request.Cast? && Election(e.request.vote.election) == contest
      && CastVote(db, e.request.vote, e.request.facts, e.now).Done?
    ==> InOrderAt(db, e.request.vote, e.request.facts, e.now)
  }

  ghost predicate InOrderAt(db: Tables, req: CastRequest, facts: Facts, now: Time)
    requires CastVote(db, req, facts, now).Done?
  {
    ListsFirstChoiceFirst(Synced(db.contests[Election(req.election)], now).system, req)
  }

  ghost predicate AllListedInOrder(db: Tables, events: seq<Event>, contest: Contest) {
    |events| == 0 ||
    (AllListedInOrder(db, events[..|events| - 1], contest)
     && ListedInOrder(Run(db, events[..|events| - 1]), events[|events| - 1], contest))
  }

  lemma {:induction false} StepKeepsIndex(db: Tables, e: Event, contest: Contest)
    requires Indexed(db, contest) && ListedInOrder(db, e, contest)
    ensures Indexed(Apply(db, e), contest)
  {
    match e.request
    case Cast(req, facts) =>
      if CastVote(db, req, facts, e.now).Done? {
        if Election(req.election) == contest {
          BallotKeepsIndexExactlyWhenListedInOrder(db, req, facts, e.now);
        } else {
          OtherContestsStayIndexed(db, req, facts, e.now, contest);
        }
      }
    case CastReferendum(req, facts) =>
      if CastReferendumVote(db, req, facts, e.now).Done? {
        ReferendumKeepsIndex(db, req, facts, e.now, contest);
      }
    case _ =>
      SameCountsSameIndex(db, Apply(db, e), contest);
  }

  /** After every run whose ranked ballots for the contest are listed in order, its tallies agree
      with a recount of the stored rows. Unranked ballots and referendums need no such condition. */
  lemma {:induction false} TallyIsRecount(db: Tables, events: seq<Event>, contest: Contest)
    requires Indexed(db, contest) && AllListedInOrder(db, events, contest)
    ensures Indexed(Run(db, events), contest)
  {
    if |events| > 0 {
      var front := events[..|events| - 1];
      TallyIsRecount(db, front, contest);
      StepKeepsIndex(Run(db, front), events[|events| - 1], contest);
    }
  }

  // ---- Exactly when a whole run keeps the index ----

  /** The request is an accepted ballot that is tallied under the key. */
  predicate Lists(db: Tables, e: Event, key: TallyKey) {
    && e.request.Cast? && CastVote(db, e.request.vote, e.request.facts, e.now).Done?
    && KeyFor(Synced(db.contests[Election(e.request.vote.election)], e.now).system, e.request.vote) == Some(key)
  }

  /** The request is an accepted ballot whose rows are recounted under the key. */
  predicate Ranks(db: Tables, e: Event, key: TallyKey) {
    && e.request.Cast? && CastVote(db, e.request.vote, e.request.facts, e.now).Done?
    && var system := Synced(db.contests[Election(e.request.vote.election)], e.now).system;
       PayloadError(system, e.request.vote).None? && RowsKey(system, e.request.vote) == Some(key)
  }

  /** Accepted ballots of a run that list the key's candidate first. */
  function ListedFirst(db: Tables, events: seq<Event>, key: TallyKey): nat {
    if |events| == 0 then 0
    else
      var front, last := events[..|events| - 1], events[|events| - 1];
      ListedFirst(db, front, key) + if Lists(Run(db, front), last, key) then 1 else 0
  }

  /** Accepted ballots of a run that rank the key's candidate first. */
  function RankedFirst(db: Tables, events: seq<Event>, key: TallyKey): nat {
    if |events| == 0 then 0
    else
      var front, last := events[..|events| - 1], events[|events| - 1];
      RankedFirst(db, front, key) + if Ranks(Run(db, front), last, key) then 1 else 0
  }

  /** Tally and recount move together, up to a ballot that lists or ranks the candidate first. */
  ghost predicate Moves(db: Tables, after: Tables, key: TallyKey, lists: bool, ranks: bool) {
    Tallied(after.tallies, key) - Tallied(db.tallies, key) - (if lists then 1 else 0)
    == Recount(after, key) - Recount(db, key) - (if ranks then 1 else 0)
  }

  lemma {:induction false} CastMoves(db: Tables, e: Event, key: TallyKey)
    requires e.request.Cast?
    ensures Moves(db, Apply(db, e), key, Lists(db, e, key), Ranks(db, e, key))
  {
    if CastVote(db, e.request.vote, e.request.facts, e.now).Done? {
      BallotCounts(db, e.request.vote, e.request.facts, e.now, key);
    }
  }

  lemma {:induction false} CastReferendumMoves(db: Tables, e: Event, key: TallyKey)
    requires e.request.CastReferendum?
    ensures Moves(db, Apply(db, e), key, false, false)
  {
    if CastReferendumVote(db, e.request.choice, e.request.voterFacts, e.now).Done? {
      TalliedIncrement(db.tallies, Some(ReferendumKey(e.request.choice)), key);
      assert Apply(db, e).referendumVotes[..|db.referendumVotes|] == db.referendumVotes;
    }
  }

  lemma {:induction false} StepMoves(db: Tables, e: Event, key: TallyKey)
    ensures Moves(db, Apply(db, e), key, Lists(db, e, key), Ranks(db, e, key))
  {
    if e.request.Cast? {
      CastMoves(db, e, key);
    } else if e.request.CastReferendum? {
      CastReferendumMoves(db, e, key);
    }
  }

  /** A tally is off its recount by the ballots that list a candidate first less those that rank it first. */
  lemma {:induction false} RunMoves(db: Tables, events: seq<Event>, key: TallyKey)
    ensures Tallied(Run(db, events).tallies, key) - Tallied(db.tallies, key) - ListedFirst(db, events, key)
            == Recount(Run(db, events), key) - Recount(db, key) - RankedFirst(db, events, key)
  {
    if |events| > 0 {
      RunMoves(db, events[..|events| - 1], key);
      StepMoves(Run(db, events[..|events| - 1]), events[|events| - 1], key);
    }
  }

  /** A run keeps the tallies of a contest equal to a recount exactly when, for every key, as many
      accepted ballots list its candidate first as rank it first. */
  lemma {:induction false} TallyIsRecountExactlyWhen(db: Tables, events: seq<Event>, contest: Contest)
    requires Indexed(db, contest)
    ensures Indexed(Run(db, events), contest)
            <==> forall key: TallyKey :: key.contest == contest ==>
              ListedFirst(db, events, key) == RankedFirst(db, events, key)
  {
    forall key: TallyKey | key.contest == contest
      ensures Tallied(Run(db, events).tallies, key) == Recount(Run(db, events), key)
              <==> ListedFirst(db, events, key) == RankedFirst(db, events, key)
    {
      RunMoves(db, events, key);
      assert Tallied(db.tallies, key) == Recount(db, key);
    }
  }

  lemma {:induction false} SameCountsSameIndex(db: Tables, after: Tables, contest: Contest)
    requires Indexed(db, contest)
    requires after.votes == db.votes && after.referendumVotes == db.referendumVotes && after.tallies == db.tallies
    ensures Indexed(after, contest)
  {
    forall key: TallyKey | key.contest == contest ensures Tallied(after.tallies, key) == Recount(after, key) {
      assert Tallied(db.tallies, key) == Recount(db, key);
    }
  }

  /** With one row per key, a stored row holds exactly what is tallied for its key. */
  lemma {:induction false} RowHoldsTally(tallies: seq<Tally>, t: Tally)
    requires OneTallyEach(tallies) && t in tallies
    ensures Tallied(tallies, t.key) == t.count
  {
    assert TalliesFor(tallies, t.key) <= 1;
    OnlyRow(tallies, t);
  }

  lemma {:induction false} OnlyRow(tallies: seq<Tally>, t: Tally)
    requires TalliesFor(tallies, t.key) <= 1 && t in tallies
    ensures Tallied(tallies, t.key) == t.count
  {
    var front, last := tallies[..|tallies| - 1], tallies[|tallies| - 1];
    if t in front {
      OnlyRow(front, t);
      SomeRow(front, t);
    } else {
      NoRowNoTally(front, t.key);
    }
  }

  lemma {:induction false} SomeRow(tallies: seq<Tally>, t: Tally)
    requires t in tallies
    ensures TalliesFor(tallies, t.key) > 0
  {
    if tallies[|tallies| - 1] != t {
      SomeRow(tallies[..|tallies| - 1], t);
    }
  }

  lemma {:induction false} NoRowNoTally(tallies: seq<Tally>, key: TallyKey)
    ensures TalliesFor(tallies, key) == 0 ==> Tallied(tallies, key) == 0
    ensures TalliesFor(tallies, key) == 0 <==> forall t :: t in tallies ==> t.key != key
  {
    if |tallies| > 0 {
      NoRowNoTally(tallies[..|tallies| - 1], key);
      assert tallies == tallies[..|tallies| - 1] + [tallies[|tallies| - 1]];
    }
  }

  lemma {:induction false} EmptyIsIndexed(contest: Contest)
    ensures Indexed(EMPTY, contest)
  {
  }
}
