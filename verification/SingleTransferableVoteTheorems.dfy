/** What every run of the Single Transferable Vote count guarantees, and what it does not. */
module SingleTransferableVoteTheorems {
  import opened Arithmetic
  import opened Ballots
  import opened SingleTransferableVote

  // ---- How many candidates can reach the quota ----

  function CountsWithin(K: set<Id>, out: set<Id>): Ballot -> bool {
    b => Top(b, out).Some? && Top(b, out).value in K
  }

  lemma {:induction false} OneOfMany(bs: seq<Ballot>, out: set<Id>, K: set<Id>, c: Id)
    requires c in K
    ensures Count(bs, CountsWithin(K, out)) == Votes(bs, out, c) + Count(bs, CountsWithin(K - {c}, out))
  {
    if |bs| > 0 {
      OneOfMany(bs[..|bs| - 1], out, K, c);
    }
  }

  lemma {:induction false} VotesAtLeast(bs: seq<Ballot>, out: set<Id>, K: set<Id>, q: nat)
    requires forall c :: c in K ==> Votes(bs, out, c) >= q
    ensures |K| * q <= Count(bs, CountsWithin(K, out))
    decreases |K|
  {
    if K != {} {
      var c :| c in K;
      OneOfMany(bs, out, K, c);
      VotesAtLeast(bs, out, K - {c}, q);
      assert |K| * q == |K - {c}| * q + q;
    }
  }

  lemma {:induction false} VotesAtMost(bs: seq<Ballot>, out: set<Id>, K: set<Id>, m: nat)
    requires forall c :: c in K ==> Votes(bs, out, c) <= m
    ensures Count(bs, CountsWithin(K, out)) <= |K| * m
    decreases |K|
  {
    if K == {} {
      CountPositive(bs, CountsWithin(K, out));
    } else {
      var c :| c in K;
      OneOfMany(bs, out, K, c);
      VotesAtMost(bs, out, K - {c}, m);
      assert |K| * m == |K - {c}| * m + m;
    }
  }

  lemma {:induction false} AtMostSeatsReachQuota(bs: seq<Ballot>, seats: nat, q: nat, out: set<Id>, K: set<Id>)
    requires (seats + 1) * q > |bs|
    requires forall c :: c in K ==> MeetsQuota(bs, q, out, c)
    ensures |K| <= seats
  {
    VotesAtLeast(bs, out, K, q);
    CountAtMost(bs, CountsWithin(K, out));
    if |K| > seats {
      MulMono(q, seats + 1, |K|);
    }
  }

  lemma {:induction false} SizeOfDistinct(s: seq<Id>)
    requires Distinct(s)
    ensures |Elements(s)| == |s|
  {
    if |s| > 0 {
      var front, last := s[..|s| - 1], s[|s| - 1];
      assert s == front + [last];
      SizeOfDistinct(front);
      assert Elements(s) == Elements(front) + {last};
    }
  }

  /** The first round elects everybody who starts with a quota. */
  lemma {:induction false} FirstRoundElects(bs: seq<Ballot>, seats: nat, q: nat, t: Progress, c: Id)
    requires (seats + 1) * q > |bs|
    requires Round(bs, seats, q, Progress([], {}), t) && MeetsQuota(bs, q, {}, c)
    ensures c in t.elected
  {
    var s := Progress([], {});
    assert Out(s) == {};
    var batch :| IsBatch(bs, seats, q, s, batch) && t == Progress([] + batch, {});
    if c !in batch {
      SizeOfDistinct(batch);
      AtMostSeatsReachQuota(bs, seats, q, {}, Elements(batch) + {c});
    }
  }

  lemma {:induction false} ElectedAtOnce(bs: seq<Ballot>, seats: nat, q: nat, trace: seq<Progress>, c: Id)
    requires (seats + 1) * q > |bs|
    requires Run(bs, seats, q, trace) && |trace| > 1 && MeetsQuota(bs, q, {}, c)
    ensures c in trace[|trace| - 1].elected
  {
    if |trace| == 2 {
      FirstRoundElects(bs, seats, q, trace[1], c);
    } else {
      ElectedAtOnce(bs, seats, q, trace[..|trace| - 1], c);
    }
  }

  /** A candidate with a quota of first preferences is elected. */
  lemma {:induction false} FirstPreferenceQuotaIsElected(bs: seq<Ballot>, seats: nat, trace: seq<Progress>,
                                                         elected: seq<Id>, c: Id)
    requires seats > 0 && Elects(bs, seats, trace, elected)
    requires Votes(bs, {}, c) >= Quota(|bs|, seats)
    ensures c in elected
  {
    if |trace| == 1 {
      assert Out(trace[0]) == {};
      NobodyCounted(bs, {});
    } else {
      QuotaIsLeast(|bs|, seats, Quota(|bs|, seats));
      ElectedAtOnce(bs, seats, Quota(|bs|, seats), trace, c);
    }
  }

  // ---- Solid coalitions ----

  /** At least `q` ballots list all of `S` before anybody else. */
  ghost predicate Coalition(bs: seq<Ballot>, q: nat, S: set<Id>) {
    S != {} && Count(bs, IsSolid(S)) >= q
  }

  lemma {:induction false} LastMemberMeetsQuota(bs: seq<Ballot>, q: nat, S: set<Id>, out: set<Id>, c: Id)
    requires Coalition(bs, q, S)
    requires c in S && c !in out && forall d :: d in S ==> d == c || d in out
    ensures MeetsQuota(bs, q, out, c)
  {
    forall b | b in bs && IsSolid(S)(b) ensures CountsFor(c, out)(b) {
      SolidTop(b, S, out);
    }
    CountMono(bs, IsSolid(S), CountsFor(c, out));
  }

  lemma {:induction false} EliminationSparesCoalition(bs: seq<Ballot>, q: nat, s: Progress, t: Progress, S: set<Id>)
    requires Coalition(bs, q, S) && EliminatesOne(bs, q, s, t) && !(S <= s.eliminated)
    ensures !(S <= t.eliminated)
  {
    var l :| Lowest(bs, Out(s), l) && t == Progress(s.elected, s.eliminated + {l});
    assert !MeetsQuota(bs, q, Out(s), l);
    VotesComeFromBallots(bs, Out(s), l);
    if S <= t.eliminated {
      LastMemberMeetsQuota(bs, q, S, Out(s), l);
    }
  }

  /** The last member of a quota coalition is never eliminated. */
  lemma {:induction false} CoalitionNeverDiesOut(bs: seq<Ballot>, seats: nat, q: nat, trace: seq<Progress>, S: set<Id>)
    requires q > 0 && Run(bs, seats, q, trace) && Coalition(bs, q, S)
    ensures !(S <= trace[|trace| - 1].eliminated)
  {
    if |trace| > 1 {
      var s, t := trace[|trace| - 2], trace[|trace| - 1];
      CoalitionNeverDiesOut(bs, seats, q, trace[..|trace| - 1], S);
      if EliminatesOne(bs, q, s, t) {
        EliminationSparesCoalition(bs, q, s, t, S);
      }
    }
  }

  /** A quota coalition elects one of its candidates, unless the seats are filled without them. */
  lemma {:induction false} CoalitionElectsOrSeatsAreFull(bs: seq<Ballot>, seats: nat, trace: seq<Progress>,
                                                         elected: seq<Id>, S: set<Id>)
    requires Elects(bs, seats, trace, elected) && Coalition(bs, Quota(|bs|, seats), S)
    ensures (exists c :: c in S && c in elected) || |elected| == seats
  {
    var s := trace[|trace| - 1];
    CoalitionNeverDiesOut(bs, seats, Quota(|bs|, seats), trace, S);
    if forall c :: c in S ==> c !in elected {
      CountPositive(bs, IsSolid(S));
      var b :| b in bs && IsSolid(S)(b);
      SolidTop(b, S, Out(s));
      CountPositive(bs, IsLive(Out(s)));
      assert IsLive(Out(s))(b);
    }
  }

  // ---- Coalitions of several quotas ----

  function Min(a: nat, b: nat): nat {
    if a < b then a else b
  }

  /** Seats won by `S` and its candidates still in, together, are enough for `k` seats. */
  ghost predicate EnoughOf(S: set<Id>, k: nat, s: Progress) {
    |Elements(s.elected) * S| + |S - Out(s)| >= Min(k, |S|)
  }

  /** While one of `S` is in, its solid ballots count for those of `S` who are. */
  lemma {:induction false} SolidBallotsStay(bs: seq<Ballot>, S: set<Id>, out: set<Id>)
    requires !(S <= out)
    ensures Count(bs, IsSolid(S)) <= Count(bs, CountsWithin(S - out, out))
  {
    forall b | b in bs && IsSolid(S)(b) ensures CountsWithin(S - out, out)(b) {
      SolidTop(b, S, out);
    }
    CountMono(bs, IsSolid(S), CountsWithin(S - out, out));
  }

  lemma {:induction false} MoreThan(k: nat, q: nat, x: nat)
    requires q > 0 && k > 0 && k * q <= x * (q - 1)
    ensures x > k
  {
    assert k * q == (q - 1) * k + k;
    if x <= k {
      MulMono(q - 1, x, k);
    }
  }

  /** Nobody of `S` reaches the quota, so more than `k` of them share the votes of `k` quotas. */
  lemma {:induction false} MoreThanQuotasLeft(bs: seq<Ballot>, q: nat, S: set<Id>, k: nat, out: set<Id>)
    requires q > 0 && k > 0 && Count(bs, IsSolid(S)) >= k * q && !(S <= out)
    requires forall c :: !MeetsQuota(bs, q, out, c)
    ensures |S - out| > k
  {
    var K := S - out;
    SolidBallotsStay(bs, S, out);
    forall c | c in K ensures Votes(bs, out, c) <= q - 1 {
      assert !MeetsQuota(bs, q, out, c);
    }
    VotesAtMost(bs, out, K, q - 1);
    MoreThan(k, q, |K|);
  }

  lemma {:induction false} BatchKeepsEnough(bs: seq<Ballot>, seats: nat, q: nat, s: Progress, batch: seq<Id>,
                                            S: set<Id>, k: nat)
    requires EnoughOf(S, k, s) && Elements(batch) !! Out(s)
    ensures EnoughOf(S, k, Progress(s.elected + batch, s.eliminated))
  {
    var t := Progress(s.elected + batch, s.eliminated);
    var A, B, A', B' := Elements(s.elected) * S, S - Out(s), Elements(t.elected) * S, S - Out(t);
    assert A' + B' == A + B && A !! B && A' !! B';
    assert |A' + B'| == |A'| + |B'| && |A + B| == |A| + |B|;
  }

  lemma {:induction false} EliminationKeepsEnough(bs: seq<Ballot>, q: nat, s: Progress, l: Id, S: set<Id>, k: nat)
    requires q > 0 && Count(bs, IsSolid(S)) >= k * q && EnoughOf(S, k, s)
    requires l !in Out(s) && forall c :: !MeetsQuota(bs, q, Out(s), c)
    ensures EnoughOf(S, k, Progress(s.elected, s.eliminated + {l}))
  {
    var t := Progress(s.elected, s.eliminated + {l});
    assert Out(t) == Out(s) + {l};
    if l in S && k > 0 {
      MoreThanQuotasLeft(bs, q, S, k, Out(s));
      assert S - Out(s) == (S - Out(t)) + {l};
    } else if l !in S {
      assert S - Out(s) == S - Out(t);
    }
  }

  lemma {:induction false} EnoughOfCoalitionStay(bs: seq<Ballot>, seats: nat, q: nat, trace: seq<Progress>, S: set<Id>,
                                                 k: nat)
    requires q > 0 && Run(bs, seats, q, trace) && Count(bs, IsSolid(S)) >= k * q
    ensures EnoughOf(S, k, trace[|trace| - 1])
  {
    if |trace| == 1 {
      assert S - Out(trace[0]) == S;
    } else {
      var s, t := trace[|trace| - 2], trace[|trace| - 1];
      EnoughOfCoalitionStay(bs, seats, q, trace[..|trace| - 1], S, k);
      RunsAreWellFormed(bs, seats, q, trace[..|trace| - 1]);
      if ElectsBatch(bs, seats, q, s, t) {
        var batch :| IsBatch(bs, seats, q, s, batch) && t == Progress(s.elected + batch, s.eliminated);
        BatchKeepsWellFormed(bs, seats, q, s, batch);
        BatchKeepsEnough(bs, seats, q, s, batch, S, k);
      } else {
        var l :| Lowest(bs, Out(s), l) && t == Progress(s.elected, s.eliminated + {l});
        VotesComeFromBallots(bs, Out(s), l);
        EliminationKeepsEnough(bs, q, s, l, S, k);
      }
    }
  }

  /** A solid coalition of `k` quotas wins `k` seats, or one for each of its candidates, unless the
      seats are filled first. */
  lemma {:induction false} CoalitionWinsItsQuotas(bs: seq<Ballot>, seats: nat, trace: seq<Progress>, elected: seq<Id>,
                                                  S: set<Id>, k: nat)
    requires Elects(bs, seats, trace, elected) && Count(bs, IsSolid(S)) >= k * Quota(|bs|, seats)
    ensures |Elements(elected) * S| >= Min(k, |S|) || |elected| == seats
  {
    var q, s := Quota(|bs|, seats), trace[|trace| - 1];
    EnoughOfCoalitionStay(bs, seats, q, trace, S, k);
    if k > 0 && |elected| < seats && S - Out(s) != {} {
      SolidBallotsStay(bs, S, Out(s));
      CountMono(bs, CountsWithin(S - Out(s), Out(s)), IsLive(Out(s)));
      MulMono(q, 1, k);
    }
  }

  // ---- Complete ballots fill every seat ----

  ghost predicate Complete(bs: seq<Ballot>) {
    forall b :: b in bs ==> Elements(b) == Candidates(bs)
  }

  lemma {:induction false} CountAll(bs: seq<Ballot>, p: Ballot -> bool)
    requires forall b :: b in bs ==> p(b)
    ensures Count(bs, p) == |bs|
  {
    if |bs| > 0 {
      CountAll(bs[..|bs| - 1], p);
    }
  }

  lemma {:induction false} CompleteBallotsCount(bs: seq<Ballot>, out: set<Id>)
    requires Complete(bs) && Candidates(bs) - out != {}
    ensures Count(bs, CountsWithin(Candidates(bs) - out, out)) == |bs|
  {
    forall b | b in bs ensures CountsWithin(Candidates(bs) - out, out)(b) {
      var c :| c in Candidates(bs) - out;
      assert c in Elements(b);
      assert Top(b, out).value in Elements(b);
    }
    CountAll(bs, CountsWithin(Candidates(bs) - out, out));
  }

  lemma {:induction false} BelowQuotaEverywhere(n: nat, seats: nat, q: nat, k: nat)
    requires 0 < n && q > 0 && (seats + 1) * (q - 1) <= n && k <= seats
    ensures k * (q - 1) < n
  {
    MulMono(q - 1, k, seats);
    if q > 1 {
      assert (seats + 1) * (q - 1) == (q - 1) * seats + (q - 1);
    }
  }

  /** Ballots that all count within `K` cannot give everybody there fewer than `q` votes. */
  lemma {:induction false} SomebodyReachesQuota(bs: seq<Ballot>, out: set<Id>, K: set<Id>, m: nat, q: nat)
    requires Count(bs, CountsWithin(K, out)) == |bs| && |K| * m < |bs| && q == m + 1
    ensures exists c :: MeetsQuota(bs, q, out, c)
  {
    if forall c :: !MeetsQuota(bs, q, out, c) {
      forall c | c in K ensures Votes(bs, out, c) <= m {
        assert !MeetsQuota(bs, q, out, c);
      }
      VotesAtMost(bs, out, K, m);
    }
  }

  /** On complete ballots, nobody is eliminated while the candidates left could all be seated. */
  lemma {:induction false} MoreThanSeatsLeft(bs: seq<Ballot>, seats: nat, q: nat, out: set<Id>)
    requires 0 < |bs| && q > 0 && (seats + 1) * (q - 1) <= |bs| && Complete(bs)
    requires Candidates(bs) - out != {} && forall c :: !MeetsQuota(bs, q, out, c)
    ensures |Candidates(bs) - out| > seats
  {
    var K := Candidates(bs) - out;
    if |K| <= seats {
      CompleteBallotsCount(bs, out);
      BelowQuotaEverywhere(|bs|, seats, q, |K|);
      SomebodyReachesQuota(bs, out, K, q - 1, q);
    }
  }

  /** Seats taken and candidates of `C` still in, together, stay enough to fill the seats. */
  ghost predicate EnoughLeft(C: set<Id>, seats: nat, s: Progress) {
    |s.elected| + |C - Out(s)| >= Min(seats, |C|)
  }

  lemma {:induction false} BatchLeavesEnough(C: set<Id>, seats: nat, s: Progress, batch: seq<Id>)
    requires Distinct(batch) && Elements(batch) <= C && Elements(batch) !! Out(s)
    requires EnoughLeft(C, seats, s)
    ensures EnoughLeft(C, seats, Progress(s.elected + batch, s.eliminated))
  {
    var t := Progress(s.elected + batch, s.eliminated);
    SizeOfDistinct(batch);
    assert Out(t) == Out(s) + Elements(batch);
    assert C - Out(s) == (C - Out(t)) + Elements(batch);
  }

  lemma {:induction false} EliminationLeavesEnough(C: set<Id>, seats: nat, s: Progress, l: Id)
    requires l in C - Out(s) && |C - Out(s)| > seats
    ensures EnoughLeft(C, seats, Progress(s.elected, s.eliminated + {l}))
  {
    var t := Progress(s.elected, s.eliminated + {l});
    assert C - Out(s) == (C - Out(t)) + {l};
  }

  lemma {:induction false} EnoughCandidatesStay(bs: seq<Ballot>, seats: nat, q: nat, trace: seq<Progress>)
    requires 0 < |bs| && q > 0 && (seats + 1) * (q - 1) <= |bs| && Complete(bs)
    requires Run(bs, seats, q, trace)
    ensures EnoughLeft(Candidates(bs), seats, trace[|trace| - 1])
  {
    if |trace| == 1 {
      assert Candidates(bs) - Out(trace[0]) == Candidates(bs);
    } else {
      var s, t := trace[|trace| - 2], trace[|trace| - 1];
      EnoughCandidatesStay(bs, seats, q, trace[..|trace| - 1]);
      RunsAreWellFormed(bs, seats, q, trace[..|trace| - 1]);
      if ElectsBatch(bs, seats, q, s, t) {
        var batch :| IsBatch(bs, seats, q, s, batch) && t == Progress(s.elected + batch, s.eliminated);
        BatchKeepsWellFormed(bs, seats, q, s, batch);
        BatchLeavesEnough(Candidates(bs), seats, s, batch);
      } else {
        var l :| Lowest(bs, Out(s), l) && t == Progress(s.elected, s.eliminated + {l});
        VotesComeFromBallots(bs, Out(s), l);
        MoreThanSeatsLeft(bs, seats, q, Out(s));
        EliminationLeavesEnough(Candidates(bs), seats, s, l);
      }
    }
  }

  /** When every ballot ranks every candidate, no seat stays empty that a candidate could fill. */
  lemma {:induction false} CompleteBallotsFillEverySeat(bs: seq<Ballot>, seats: nat, trace: seq<Progress>,
                                                        elected: seq<Id>)
    requires |bs| > 0 && Complete(bs) && Elects(bs, seats, trace, elected)
    ensures |elected| == Min(seats, |Candidates(bs)|)
  {
    var q := Quota(|bs|, seats);
    DivisionBounds(|bs|, seats + 1);
    EnoughCandidatesStay(bs, seats, q, trace);
    RunsAreWellFormed(bs, seats, q, trace);
    FullHouse(bs, seats, trace[|trace| - 1]);
  }

  lemma {:induction false} FullHouse(bs: seq<Ballot>, seats: nat, s: Progress)
    requires |bs| > 0 && Complete(bs) && Finished(bs, seats, s) && WellFormed(bs, seats, s)
    requires EnoughLeft(Candidates(bs), seats, s)
    ensures |s.elected| == Min(seats, |Candidates(bs)|)
  {
    var elected := s.elected;
    SizeOfDistinct(elected);
    SubsetSize(Elements(elected), Candidates(bs));
    if |elected| < seats && Candidates(bs) - Out(s) != {} {
      CompleteBallotsCount(bs, Out(s));
      CountMono(bs, CountsWithin(Candidates(bs) - Out(s), Out(s)), IsLive(Out(s)));
    }
  }

  // ---- Ballots with a single candidate leave seats empty ----

  ghost predicate SingleChoice(bs: seq<Ballot>) {
    forall b :: b in bs ==> |b| == 1
  }

  lemma {:induction false} SingleChoiceVotes(bs: seq<Ballot>, out: set<Id>, c: Id)
    requires SingleChoice(bs) && c !in out
    ensures Votes(bs, out, c) == Votes(bs, {}, c)
  {
    forall b | b in bs ensures CountsFor(c, out)(b) <==> CountsFor(c, {})(b) {
      assert b == [b[0]];
    }
    CountMono(bs, CountsFor(c, out), CountsFor(c, {}));
    CountMono(bs, CountsFor(c, {}), CountsFor(c, out));
  }

  lemma {:induction false} OnlyQuotaHoldersElected(bs: seq<Ballot>, seats: nat, q: nat, trace: seq<Progress>)
    requires q > 0 && SingleChoice(bs) && Run(bs, seats, q, trace)
    ensures forall c :: c in trace[|trace| - 1].elected ==> MeetsQuota(bs, q, {}, c)
  {
    if |trace| > 1 {
      var s, t := trace[|trace| - 2], trace[|trace| - 1];
      OnlyQuotaHoldersElected(bs, seats, q, trace[..|trace| - 1]);
      if ElectsBatch(bs, seats, q, s, t) {
        var batch :| IsBatch(bs, seats, q, s, batch) && t == Progress(s.elected + batch, s.eliminated);
        forall c | c in batch ensures MeetsQuota(bs, q, {}, c) {
          VotesComeFromBallots(bs, Out(s), c);
          SingleChoiceVotes(bs, Out(s), c);
        }
      }
    }
  }

  /** With one name per ballot, exactly the candidates with a quota of votes are elected; there is
      no rule that fills the seats they leave. */
  lemma {:induction false} SingleChoiceElectsQuotaHolders(bs: seq<Ballot>, seats: nat, trace: seq<Progress>,
                                                          elected: seq<Id>)
    requires seats > 0 && SingleChoice(bs) && Elects(bs, seats, trace, elected)
    ensures forall c :: c in elected <==> Votes(bs, {}, c) >= Quota(|bs|, seats)
  {
    OnlyQuotaHoldersElected(bs, seats, Quota(|bs|, seats), trace);
    forall c | Votes(bs, {}, c) >= Quota(|bs|, seats) ensures c in elected {
      FirstPreferenceQuotaIsElected(bs, seats, trace, elected, c);
    }
    forall c | c in elected ensures Votes(bs, {}, c) >= Quota(|bs|, seats) {
      assert MeetsQuota(bs, Quota(|bs|, seats), {}, c);
    }
  }

  /** `n` voters who each name a candidate of their own. */
  function Singles(n: nat): seq<Ballot> {
    if n == 0 then [] else Singles(n - 1) + [[Uuid(n)]]
  }

  lemma {:induction false} SinglesVotes(n: nat, c: Id)
    ensures |Singles(n)| == n && SingleChoice(Singles(n))
    ensures Votes(Singles(n), {}, c) == if 1 <= c.text <= n then 1 else 0
  {
    if n > 0 {
      SinglesVotes(n - 1, c);
      assert Singles(n)[..n - 1] == Singles(n - 1);
    }
  }

  lemma {:induction false} SomebodyIn(s: seq<Id>)
    ensures |s| > 0 ==> exists c :: c in s
  {
    if |s| > 0 {
      assert s[0] in s;
    }
  }

  /** However many the seats, one more voter than seats can leave all of them empty: for the five
      seats of a constituency, six voters with a candidate each. */
  lemma {:induction false} EverySeatMayStayEmpty(seats: nat, trace: seq<Progress>, elected: seq<Id>)
    requires seats > 0 && Elects(Singles(seats + 1), seats, trace, elected)
    ensures |Singles(seats + 1)| == seats + 1 && elected == []
  {
    SinglesVotes(seats + 1, Uuid(0));
    QuotaIsLeast(seats + 1, seats, 1);
    SingleChoiceElectsQuotaHolders(Singles(seats + 1), seats, trace, elected);
    forall c ensures c !in elected {
      SinglesVotes(seats + 1, c);
    }
    SomebodyIn(elected);
  }
}
