/** The totals of an election by tallies against its stored vote rows: unlike the winners, they agree
    after every run, in whatever order ranked ballots list their preferences. */
module LocalTotals {
  import opened Ballots
  import opened Records
  import opened RankedRows
  import opened VotingWindow
  import opened VotingTables
  import opened VotingRuns
  import opened ElectionResults
  import ResultCache

  function CountVotes(votes: seq<Vote>, p: Vote -> bool): nat {
    if |votes| == 0 then 0 else CountVotes(votes[..|votes| - 1], p) + if p(votes[|votes| - 1]) then 1 else 0
  }

  function SumTallies(tallies: seq<Tally>, p: TallyKey -> bool): nat {
    if |tallies| == 0 then 0
    else SumTallies(tallies[..|tallies| - 1], p)
         + if p(tallies[|tallies| - 1].key) then tallies[|tallies| - 1].count else 0
  }

  /** An unranked vote or a first preference for a candidate in a constituency of the election. */
  predicate IsLocalVote(v: Vote, election: Id) {
    v.election == election && v.constituency.Some? && v.candidate.Some? && (v.rank.None? || v.rank == Some(1))
  }

  function LocalVotes(election: Id): Vote -> bool {
    (v: Vote) => IsLocalVote(v, election)
  }

  function VotesIn(election: Id, cs: set<Id>): Vote -> bool {
    (v: Vote) => IsLocalVote(v, election) && v.constituency.value in cs
  }

  function KeysIn(election: Id, cs: set<Id>): TallyKey -> bool {
    (key: TallyKey) => key.contest == Election(election) && key.constituency.Some? && key.constituency.value in cs
  }

  // ---- The rows of one ballot ----

  function RankOnes(prefs: seq<Preference>): nat {
    if |prefs| == 0 then 0 else RankOnes(prefs[1..]) + if prefs[0].rank == 1 then 1 else 0
  }

  lemma {:induction false} RankOnesConcat(a: seq<Preference>, b: seq<Preference>)
    ensures RankOnes(a + b) == RankOnes(a) + RankOnes(b)
  {
    if |a| == 0 {
      assert a + b == b;
    } else {
      assert (a + b)[1..] == a[1..] + b;
      RankOnesConcat(a[1..], b);
    }
  }

  lemma {:induction false} RankOnesLast(front: seq<Preference>, last: Preference)
    ensures RankOnes(front + [last]) == RankOnes(front) + if last.rank == 1 then 1 else 0
  {
    RankOnesConcat(front, [last]);
    assert [last][1..] == [];
  }

  lemma {:induction false} RankOnesWithout(prefs: seq<Preference>, i: nat)
    requires i < |prefs|
    ensures RankOnes(prefs) == RankOnes(prefs[..i] + prefs[i + 1..]) + if prefs[i].rank == 1 then 1 else 0
  {
    var a, p, b := prefs[..i], prefs[i], prefs[i + 1..];
    assert prefs == a + [p] + b;
    RankOnesConcat(a + [p], b);
    RankOnesLast(a, p);
    RankOnesConcat(a, b);
  }

  lemma {:induction false} RankOnesOfPermutation(a: seq<Preference>, b: seq<Preference>)
    requires multiset(a) == multiset(b)
    ensures RankOnes(a) == RankOnes(b)
    decreases |a|
  {
    if |a| == 0 {
      assert |multiset(b)| == |b|;
    } else {
      var n := |a| - 1;
      var i := WhereLast(a, b);
      RankOnesOfPermutation(a[..n], b[..i] + b[i + 1..]);
      RankOnesWithout(b, i);
      RankOnesLast(a[..n], a[n]);
      assert a == a[..n] + [a[n]];
    }
  }

  lemma {:induction false} NoRankOnes(prefs: seq<Preference>)
    requires forall i :: 0 <= i < |prefs| ==> prefs[i].rank != 1
    ensures RankOnes(prefs) == 0
  {
    if |prefs| > 0 {
      NoRankOnes(prefs[1..]);
    }
  }

  lemma {:induction false} OneRankOne(prefs: seq<Preference>)
    requires ConsecutiveFromOne(prefs)
    ensures RankOnes(prefs) == 1
  {
    RankOnesOfPermutation(SortByRank(prefs), prefs);
    NoRankOnes(SortByRank(prefs)[1..]);
  }

  lemma {:induction false} CountConcat(a: seq<Vote>, b: seq<Vote>, p: Vote -> bool)
    ensures CountVotes(a + b, p) == CountVotes(a, p) + CountVotes(b, p)
  {
    if |b| == 0 {
      assert a + b == a;
    } else {
      assert (a + b)[..|a + b| - 1] == a + b[..|b| - 1];
      CountConcat(a, b[..|b| - 1], p);
    }
  }

  lemma {:induction false} CountOne(v: Vote, p: Vote -> bool)
    ensures CountVotes([v], p) == if p(v) then 1 else 0
  {
    assert [v][..0] == [];
  }

  predicate CastIn(req: CastRequest, election: Id, cs: set<Id>) {
    req.election == election && req.constituency.Some? && req.constituency.value in cs
  }

  lemma {:induction false} CountRanked(req: CastRequest, prefs: seq<Preference>, now: Time, election: Id, cs: set<Id>)
    ensures CountVotes(RankedVotes(req, prefs, now), VotesIn(election, cs))
            == if CastIn(req, election, cs) then RankOnes(prefs) else 0
  {
    if |prefs| > 0 {
      var front, last := prefs[..|prefs| - 1], prefs[|prefs| - 1];
      CountRanked(req, front, now, election, cs);
      RankOnesLast(front, last);
      assert prefs == front + [last];
      var row := Vote(req.election, req.constituency, Some(last.candidate), None, Some(last.rank),
                      Marked(req.text, last.rank), now);
      CountConcat(RankedVotes(req, front, now), [row], VotesIn(election, cs));
      CountOne(row, VotesIn(election, cs));
    }
  }

  lemma {:induction false} CountAms(req: CastRequest, now: Time, election: Id, cs: set<Id>)
    ensures CountVotes(NewVotes(Ams, req, now), VotesIn(election, cs))
            == if req.candidate.Some? && CastIn(req, election, cs) then 1 else 0
  {
    var own := Vote(req.election, req.constituency, req.candidate, None, None, req.text, now);
    var list := Vote(req.election, req.constituency, None, req.party, None,
                     if req.candidate.Some? then req.text + ":list" else req.text, now);
    var a := if req.candidate.Some? then [own] else [];
    var b := if req.party.Some? then [list] else [];
    assert NewVotes(Ams, req, now) == a + b;
    CountConcat(a, b, VotesIn(election, cs));
    CountOne(own, VotesIn(election, cs));
    CountOne(list, VotesIn(election, cs));
  }

  /** The rows of a valid ballot hold one local vote exactly when the ballot is tallied. */
  lemma {:induction false} BallotIsOneVote(system: System, req: CastRequest, now: Time, election: Id, cs: set<Id>)
    requires PayloadError(system, req).None?
    ensures CountVotes(NewVotes(system, req, now), VotesIn(election, cs))
            == if KeyFor(system, req).Some? && CastIn(req, election, cs) then 1 else 0
  {
    match system
    case Fptp =>
      CountOne(Vote(req.election, req.constituency, req.candidate, None, None, req.text, now), VotesIn(election, cs));
    case Ams =>
      CountAms(req, now, election, cs);
    case _ =>
      CountRanked(req, req.ranked.value, now, election, cs);
      OneRankOne(req.ranked.value);
  }

  // ---- Runs ----

  lemma {:induction false} SumBumped(tallies: seq<Tally>, key: TallyKey, p: TallyKey -> bool)
    ensures SumTallies(Bumped(tallies, key), p) == SumTallies(tallies, p)
            + if p(key) then TalliesFor(tallies, key) else 0
  {
    if |tallies| > 0 {
      var n := |tallies| - 1;
      SumBumped(tallies[..n], key, p);
      assert Bumped(tallies, key)[..|Bumped(tallies, key)| - 1] == Bumped(tallies[..n], key);
    }
  }

  lemma {:induction false} SumIncremented(tallies: seq<Tally>, key: Option<TallyKey>, p: TallyKey -> bool)
    requires Incremented(tallies, key).Some?
    ensures SumTallies(Incremented(tallies, key).value, p) == SumTallies(tallies, p)
            + if key.Some? && p(key.value) then 1 else 0
  {
    if key.Some? {
      if TalliesFor(tallies, key.value) == 0 {
        assert (tallies + [Tally(key.value, 1)])[..|tallies|] == tallies;
      } else {
        SumBumped(tallies, key.value, p);
      }
    }
  }

  ghost predicate Balanced(db: Tables, election: Id, cs: set<Id>) {
    SumTallies(db.tallies, KeysIn(election, cs)) == CountVotes(db.votes, VotesIn(election, cs))
  }

  lemma {:induction false} CastKeepsBalance(db: Tables, req: CastRequest, facts: Facts, now: Time, election: Id,
                                            cs: set<Id>)
    requires Balanced(db, election, cs) && CastVote(db, req, facts, now).Done?
    ensures Balanced(CastVote(db, req, facts, now).tables, election, cs)
  {
    var system := Synced(db.contests[Election(req.election)], now).system;
    assert PayloadError(system, req).None?;
    SumIncremented(db.tallies, KeyFor(system, req), KeysIn(election, cs));
    BallotIsOneVote(system, req, now, election, cs);
    CountConcat(db.votes, NewVotes(system, req, now), VotesIn(election, cs));
  }

  lemma {:induction false} StepKeepsBalance(db: Tables, e: Event, election: Id, cs: set<Id>)
    requires Balanced(db, election, cs)
    ensures Balanced(Apply(db, e), election, cs)
  {
    match e.request
    case Cast(req, facts) =>
      if CastVote(db, req, facts, e.now).Done? {
        CastKeepsBalance(db, req, facts, e.now, election, cs);
      }
    case CastReferendum(req, facts) =>
      if CastReferendumVote(db, req, facts, e.now).Done? {
        SumIncremented(db.tallies, Some(ReferendumKey(req)), KeysIn(election, cs));
      }
    case _ =>
  }

  /** After any run, whatever constituencies are asked about, the tallies there add up to the local
      votes stored there. */
  lemma {:induction false} TalliesAddUpToRows(events: seq<Event>, election: Id, cs: set<Id>)
    ensures SumTallies(Run(EMPTY, events).tallies, KeysIn(election, cs))
            == CountVotes(Run(EMPTY, events).votes, VotesIn(election, cs))
  {
    if |events| > 0 {
      TalliesAddUpToRows(events[..|events| - 1], election, cs);
      StepKeepsBalance(Run(EMPTY, events[..|events| - 1]), events[|events| - 1], election, cs);
    }
  }

  // ---- From tallies to results ----

  lemma {:induction false} SumOfElection(tallies: seq<Tally>, election: Id, cs: set<Id>)
    ensures SumTallies(ResultCache.TalliesOf(tallies, election), KeysIn(election, cs))
            == SumTallies(tallies, KeysIn(election, cs))
  {
    if |tallies| > 0 {
      var n := |tallies| - 1;
      SumOfElection(tallies[..n], election, cs);
      var front := ResultCache.TalliesOf(tallies[..n], election);
      if tallies[n].key.contest == Election(election) {
        assert ResultCache.TalliesOf(tallies, election) == front + [tallies[n]];
        SumConcat(front, [tallies[n]], KeysIn(election, cs));
        SumOne(tallies[n], KeysIn(election, cs));
      } else {
        assert ResultCache.TalliesOf(tallies, election) == front;
        assert !KeysIn(election, cs)(tallies[n].key);
      }
    }
  }

  lemma {:induction false} SumOne(t: Tally, p: TallyKey -> bool)
    ensures SumTallies([t], p) == if p(t.key) then t.count else 0
  {
    assert [t][..0] == [];
  }

  lemma {:induction false} SumConcat(a: seq<Tally>, b: seq<Tally>, p: TallyKey -> bool)
    ensures SumTallies(a + b, p) == SumTallies(a, p) + SumTallies(b, p)
  {
    if |b| == 0 {
      assert a + b == a;
    } else {
      assert (a + b)[..|a + b| - 1] == a + b[..|b| - 1];
      SumConcat(a, b[..|b| - 1], p);
    }
  }

  lemma {:induction false} SumRemove(tallies: seq<Tally>, i: nat, p: TallyKey -> bool)
    requires i < |tallies|
    ensures SumTallies(tallies, p)
            == SumTallies(tallies[..i] + tallies[i + 1..], p) + if p(tallies[i].key) then tallies[i].count else 0
  {
    var a, t, b := tallies[..i], tallies[i], tallies[i + 1..];
    assert tallies == a + [t] + b && (a + [t])[..|a|] == a;
    SumConcat(a + [t], b, p);
    SumConcat(a, b, p);
  }

  lemma {:induction false} SumOfPermutation(a: seq<Tally>, b: seq<Tally>, p: TallyKey -> bool)
    requires multiset(a) == multiset(b)
    ensures SumTallies(a, p) == SumTallies(b, p)
    decreases |a|
  {
    if |a| == 0 {
      assert |multiset(b)| == |b|;
    } else {
      var n := |a| - 1;
      var i := WhereLast(a, b);
      SumOfPermutation(a[..n], b[..i] + b[i + 1..], p);
      SumRemove(b, i, p);
    }
  }

  lemma {:induction false} SumHere(tallies: seq<Tally>, election: Id, c: Id)
    requires forall t :: t in tallies ==> t.key.contest == Election(election)
    ensures SumCounts(Here(tallies, c)) == SumTallies(tallies, KeysIn(election, {c}))
  {
    if |tallies| > 0 {
      var n := |tallies| - 1;
      SumHere(tallies[..n], election, c);
      var front := Here(tallies[..n], c);
      assert front + [] == front && (front + [tallies[n]])[..|front|] == front;
    }
  }

  lemma {:induction false} SumOneMore(tallies: seq<Tally>, election: Id, cs: set<Id>, c: Id)
    requires c !in cs
    ensures SumTallies(tallies, KeysIn(election, cs + {c}))
            == SumTallies(tallies, KeysIn(election, cs)) + SumTallies(tallies, KeysIn(election, {c}))
  {
    if |tallies| > 0 {
      SumOneMore(tallies[..|tallies| - 1], election, cs, c);
    }
  }

  function Reported(results: seq<ConstituencyResult>): set<Id> {
    set i | 0 <= i < |results| :: results[i].constituency
  }

  lemma {:induction false} TotalOfResults(results: seq<ConstituencyResult>, tallies: seq<Tally>, election: Id)
    requires forall t :: t in tallies ==> t.key.contest == Election(election)
    requires forall i :: 0 <= i < |results| ==> results[i].total == SumCounts(Here(tallies, results[i].constituency))
    requires forall i, j :: 0 <= i < j < |results| ==> results[i].constituency != results[j].constituency
    ensures TotalVotes(results) == SumTallies(tallies, KeysIn(election, Reported(results)))
  {
    if |results| == 0 {
      assert Reported(results) == {};
      NothingIn(tallies, election);
    } else {
      var front, last := results[..|results| - 1], results[|results| - 1];
      TotalOfResults(front, tallies, election);
      SumHere(tallies, election, last.constituency);
      SumOneMore(tallies, election, Reported(front), last.constituency);
      assert Reported(results) == Reported(front) + {last.constituency};
    }
  }

  lemma {:induction false} NothingIn(tallies: seq<Tally>, election: Id)
    ensures SumTallies(tallies, KeysIn(election, {})) == 0
  {
    if |tallies| > 0 {
      NothingIn(tallies[..|tallies| - 1], election);
    }
  }

  lemma {:induction false} SameCount(votes: seq<Vote>, p: Vote -> bool, q: Vote -> bool)
    requires forall v :: v in votes ==> (p(v) <==> q(v))
    ensures CountVotes(votes, p) == CountVotes(votes, q)
  {
    if |votes| > 0 {
      SameCount(votes[..|votes| - 1], p, q);
    }
  }

  lemma {:induction false} SomebodyCounted(votes: seq<Vote>, p: Vote -> bool, v: Vote)
    requires v in votes && p(v)
    ensures CountVotes(votes, p) > 0
  {
    if votes[|votes| - 1] != v {
      SomebodyCounted(votes[..|votes| - 1], p, v);
    }
  }

  /** A constituency with local votes has tallies of this election. */
  lemma {:induction false} VotesAreReported(events: seq<Event>, election: Id, tallies: seq<Tally>, v: Vote)
    requires AreTalliesOf(tallies, events, election)
    requires v in Run(EMPTY, events).votes && IsLocalVote(v, election)
    ensures Here(tallies, v.constituency.value) != []
  {
    var db, c := Run(EMPTY, events), v.constituency.value;
    SomebodyCounted(db.votes, VotesIn(election, {c}), v);
    SumIsRecount(events, election, tallies, {c});
    TalliesAreOfElection(events, election, tallies);
    SumHere(tallies, election, c);
  }

  /** The tallies read for an election are those stored by the run, in some order. */
  ghost predicate AreTalliesOf(tallies: seq<Tally>, events: seq<Event>, election: Id) {
    multiset(tallies) == multiset(ResultCache.TalliesOf(Run(EMPTY, events).tallies, election))
  }

  lemma {:induction false} TalliesAreOfElection(events: seq<Event>, election: Id, tallies: seq<Tally>)
    requires AreTalliesOf(tallies, events, election)
    ensures forall t :: t in tallies ==> t.key.contest == Election(election)
  {
    forall t | t in tallies ensures t.key.contest == Election(election) {
      assert t in multiset(tallies);
      OfElection(Run(EMPTY, events).tallies, election, t);
    }
  }

  lemma {:induction false} OfElection(tallies: seq<Tally>, election: Id, t: Tally)
    requires t in ResultCache.TalliesOf(tallies, election)
    ensures t.key.contest == Election(election)
  {
    if t in ResultCache.TalliesOf(tallies[..|tallies| - 1], election) {
      OfElection(tallies[..|tallies| - 1], election, t);
    }
  }

  lemma {:induction false} SumIsRecount(events: seq<Event>, election: Id, tallies: seq<Tally>, cs: set<Id>)
    requires AreTalliesOf(tallies, events, election)
    ensures SumTallies(tallies, KeysIn(election, cs)) == CountVotes(Run(EMPTY, events).votes, VotesIn(election, cs))
  {
    var db := Run(EMPTY, events);
    SumOfPermutation(tallies, ResultCache.TalliesOf(db.tallies, election), KeysIn(election, cs));
    SumOfElection(db.tallies, election, cs);
    TalliesAddUpToRows(events, election, cs);
  }

  /** After any run, every constituency's total is the number of local votes stored there, and the
      total of the election is the number of all of them: each is counted once. */
  lemma {:induction false} TotalsMatchRows(events: seq<Event>, election: Id, tallies: seq<Tally>, parties: map<Id, Id>,
                                           results: seq<ConstituencyResult>)
    requires AreTalliesOf(tallies, events, election)
    requires ReportsEachOnce(results, tallies) && forall i :: 0 <= i < |results| ==>
      IsResult(results[i], tallies, parties)
    ensures forall i :: 0 <= i < |results| ==>
      results[i].total == CountVotes(Run(EMPTY, events).votes, VotesIn(election, {results[i].constituency}))
    ensures TotalVotes(results) == CountVotes(Run(EMPTY, events).votes, LocalVotes(election))
  {
    var db := Run(EMPTY, events);
    TalliesAreOfElection(events, election, tallies);
    forall i | 0 <= i < |results|
      ensures results[i].total == CountVotes(db.votes, VotesIn(election, {results[i].constituency}))
    {
      SumHere(tallies, election, results[i].constituency);
      SumIsRecount(events, election, tallies, {results[i].constituency});
    }
    TotalOfResults(results, tallies, election);
    SumIsRecount(events, election, tallies, Reported(results));
    forall v | v in db.votes ensures VotesIn(election, Reported(results))(v) <==> LocalVotes(election)(v) {
      if IsLocalVote(v, election) {
        VotesAreReported(events, election, tallies, v);
        assert Reports(results, v.constituency.value);
      }
    }
    SameCount(db.votes, VotesIn(election, Reported(results)), LocalVotes(election));
  }
}
