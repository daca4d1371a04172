/** Exactly when the count as written is sure to fill every seat that it has a candidate for. */
module FilledSeats {
  import opened Ballots
  import opened SingleTransferableVote
  import opened SingleTransferableVoteTheorems
  import opened SurplusNotTransferred

  ghost predicate OmitsFrom(C: set<Id>, bs: seq<Ballot>, k: nat) {
    forall b :: b in bs ==> |C - Elements(b)| <= k
  }

  /** No ballot leaves out more than `k` of the candidates. */
  ghost predicate OmitsAtMost(bs: seq<Ballot>, k: nat) {
    OmitsFrom(Candidates(bs), bs, k)
  }

  /** On all ballots that omit at most `k` candidates, every count elects as many as there are seats or
      candidates. */
  ghost predicate FillsEverySeat(seats: nat, k: nat) {
    forall bs, trace, elected :: OmitsAtMost(bs, k) && Elects(bs, seats, trace, elected)
      ==> |elected| == Min(seats, |Candidates(bs)|)
  }

  lemma {:induction false} OmittingNothing(C: set<Id>, bs: seq<Ballot>, b: Ballot)
    requires OmitsFrom(C, bs, 0) && b in bs && Elements(b) <= C
    ensures Elements(b) == C
  {
    assert |C - Elements(b)| == 0;
    assert C - Elements(b) == {};
  }

  lemma {:induction false} BallotsListCandidates(bs: seq<Ballot>, b: Ballot)
    requires b in bs
    ensures Elements(b) <= Candidates(bs)
  {
  }

  lemma {:induction false} OmittingNothingIsComplete(bs: seq<Ballot>)
    requires OmitsAtMost(bs, 0)
    ensures Complete(bs)
  {
    forall b | b in bs ensures Elements(b) == Candidates(bs) {
      BallotsListCandidates(bs, b);
      OmittingNothing(Candidates(bs), bs, b);
    }
  }

  lemma {:induction false} NobodyToElect(seats: nat, trace: seq<Progress>, elected: seq<Id>)
    requires Elects([], seats, trace, elected)
    ensures |elected| == Min(seats, |Candidates([])|)
  {
    RunsAreWellFormed([], seats, Quota(0, seats), trace);
    SizeOfDistinct(elected);
    assert Elements(elected) == Candidates([]) == {};
  }

  // ---- Two voters for one seat ----

  lemma {:induction false} VotesOfTwoSingles(out: set<Id>, c: Id)
    ensures Votes([[A], [B]], out, c) == if (c == A && A !in out) || (c == B && B !in out) then 1 else 0
  {
    CountTwo([A], [B], CountsFor(c, out));
  }

  lemma {:induction false} TwoSinglesRun()
    ensures Run([[A], [B]], 1, 2, [Progress([], {}), Progress([], {A}), Progress([], {A, B})])
  {
    var bs := [[A], [B]];
    var s, t, u := Progress([], {}), Progress([], {A}), Progress([], {A, B});
    forall out, c ensures Votes(bs, out, c) == if (c == A && A !in out) || (c == B && B !in out) then 1 else 0 {
      VotesOfTwoSingles(out, c);
    }
    assert Out(s) == {} && Out(t) == {A};
    assert Lowest(bs, {}, A) && EliminatesOne(bs, 2, s, t);
    assert Lowest(bs, {A}, B) && EliminatesOne(bs, 2, t, u);
    RunOfThreeStates(bs, 1, 2, s, t, u);
  }

  lemma {:induction false} TwoSinglesElectNobody()
    ensures Elects([[A], [B]], 1, [Progress([], {}), Progress([], {A}), Progress([], {A, B})], [])
    ensures NameOneOf([[A], [B]], A, B)
  {
    var bs := [[A], [B]];
    QuotaIsLeast(2, 1, 1);
    QuotaIsLeast(2, 1, 2);
    TwoSinglesRun();
    assert Out(Progress([], {A, B})) == {A, B};
    CountTwo([A], [B], IsLive({A, B}));
    assert bs[0] == [A] && bs[1] == [B];
  }

  lemma {:induction false} RunOfThreeStates(bs: seq<Ballot>, seats: nat, q: nat, s: Progress, t: Progress, u: Progress)
    requires s == Progress([], {}) && Round(bs, seats, q, s, t) && Round(bs, seats, q, t, u)
    ensures Run(bs, seats, q, [s, t, u])
  {
    RunGoesOn(bs, seats, q, [s], t);
    RunGoesOn(bs, seats, q, [s, t], u);
    assert [s] + [t] == [s, t] && [s, t] + [u] == [s, t, u];
  }

  /** Ballots that name one of two candidates each. */
  ghost predicate NameOneOf(bs: seq<Ballot>, a: Id, b: Id) {
    a != b && [a] in bs && [b] in bs && forall x :: x in bs ==> x == [a] || x == [b]
  }

  lemma {:induction false} CandidatesOfTwo(bs: seq<Ballot>, a: Id, b: Id)
    requires NameOneOf(bs, a, b)
    ensures Candidates(bs) == {a, b}
  {
    BallotsListCandidates(bs, [a]);
    BallotsListCandidates(bs, [b]);
    assert a in Elements([a]) && b in Elements([b]);
    forall c | c in Candidates(bs) ensures c in {a, b} {
      var x :| x in bs && c in x;
    }
  }

  lemma {:induction false} OneOfTwoOmitted(x: Ballot, a: Id, b: Id)
    requires a != b && (x == [a] || x == [b])
    ensures |{a, b} - Elements(x)| <= 1
  {
    var other := if x == [a] then b else a;
    assert x[0] in x;
    SubsetSize({a, b} - Elements(x), {other});
  }

  lemma {:induction false} NamingOneOmitsOne(bs: seq<Ballot>, a: Id, b: Id, k: nat)
    requires NameOneOf(bs, a, b) && k >= 1
    ensures |Candidates(bs)| == 2 && OmitsAtMost(bs, k)
  {
    CandidatesOfTwo(bs, a, b);
    forall x | x in bs ensures |{a, b} - Elements(x)| <= k {
      OneOfTwoOmitted(x, a, b);
    }
  }

  // ---- One voter against many ----

  /** One voter names B; `seats + 1` voters name A. */
  function OneAgainstMany(seats: nat): seq<Ballot> {
    [[B]] + Copies([A], seats + 1)
  }

  lemma {:induction false} CountOneAgainstMany(seats: nat, p: Ballot -> bool)
    ensures |OneAgainstMany(seats)| == seats + 2
    ensures Count(OneAgainstMany(seats), p) == (if p([B]) then 1 else 0) + if p([A]) then seats + 1 else 0
  {
    CountCopies([[B]], [A], seats + 1, p);
    assert [[B]][..0] == [];
  }

  lemma {:induction false} VotesOfOneAgainstMany(seats: nat, out: set<Id>, c: Id)
    ensures Votes(OneAgainstMany(seats), out, c)
            == if c == A && A !in out then seats + 1 else if c == B && B !in out then 1 else 0
  {
    CountOneAgainstMany(seats, CountsFor(c, out));
  }

  lemma {:induction false} QuotaOfOneAgainstMany(seats: nat)
    requires seats >= 2
    ensures Quota(|OneAgainstMany(seats)|, seats) == 2
  {
    CountOneAgainstMany(seats, IsMarked());
    QuotaIsLeast(seats + 2, seats, 1);
    QuotaIsLeast(seats + 2, seats, 2);
  }

  lemma {:induction false} ManyElectA(seats: nat)
    requires seats >= 2
    ensures Round(OneAgainstMany(seats), seats, 2, Progress([], {}), Progress([A], {}))
  {
    var bs, s := OneAgainstMany(seats), Progress([], {});
    assert Out(s) == {};
    forall c ensures MeetsQuota(bs, 2, Out(s), c) <==> c == A {
      VotesOfOneAgainstMany(seats, {}, c);
    }
    assert IsBatch(bs, seats, 2, s, [A]);
  }

  lemma {:induction false} ThenBIsOut(seats: nat)
    requires seats >= 2
    ensures Round(OneAgainstMany(seats), seats, 2, Progress([A], {}), Progress([A], {B}))
  {
    var bs, s := OneAgainstMany(seats), Progress([A], {});
    assert Out(s) == {A};
    forall c ensures Votes(bs, Out(s), c) == if c == B then 1 else 0 {
      VotesOfOneAgainstMany(seats, {A}, c);
    }
    forall c ensures !MeetsQuota(bs, 2, Out(s), c) {
      assert Votes(bs, Out(s), c) <= 1;
    }
    assert Lowest(bs, Out(s), B);
  }

  lemma {:induction false} ManyElectTheirsAlone(seats: nat)
    requires seats >= 2
    ensures Run(OneAgainstMany(seats), seats, 2, [Progress([], {}), Progress([A], {}), Progress([A], {B})])
  {
    ManyElectA(seats);
    ThenBIsOut(seats);
    RunOfThreeStates(OneAgainstMany(seats), seats, 2, Progress([], {}), Progress([A], {}), Progress([A], {B}));
  }

  lemma {:induction false} NobodyIsLeft(seats: nat)
    ensures Active(OneAgainstMany(seats), {A, B}) == 0
  {
    CountOneAgainstMany(seats, IsLive({A, B}));
  }

  lemma {:induction false} ManyLeaveASeatEmpty(seats: nat)
    requires seats >= 2
    ensures Elects(OneAgainstMany(seats), seats, [Progress([], {}), Progress([A], {}), Progress([A], {B})], [A])
  {
    QuotaOfOneAgainstMany(seats);
    ManyElectTheirsAlone(seats);
    NobodyIsLeft(seats);
    assert Out(Progress([A], {B})) == {A, B};
  }

  lemma {:induction false} OneAgainstManyNameOne(seats: nat)
    ensures NameOneOf(OneAgainstMany(seats), A, B)
  {
    var bs, many := OneAgainstMany(seats), Copies([A], seats + 1);
    InCopies([A], seats + 1);
    assert bs[0] == [B] && bs[1] == many[0] && many[0] in many;
  }

  lemma {:induction false} CompleteBallotsAreEnough(seats: nat)
    ensures FillsEverySeat(seats, 0)
  {
    forall bs, trace, elected | OmitsAtMost(bs, 0) && Elects(bs, seats, trace, elected)
      ensures |elected| == Min(seats, |Candidates(bs)|)
    {
      if bs == [] {
        NobodyToElect(seats, trace, elected);
      } else {
        OmittingNothingIsComplete(bs);
        CompleteBallotsFillEverySeat(bs, seats, trace, elected);
      }
    }
  }

  lemma {:induction false} Refutes(seats: nat, k: nat, bs: seq<Ballot>, trace: seq<Progress>, elected: seq<Id>)
    requires NameOneOf(bs, A, B) && k > 0
    requires Elects(bs, seats, trace, elected) && |elected| < Min(seats, 2)
    ensures !FillsEverySeat(seats, k)
  {
    NamingOneOmitsOne(bs, A, B, k);
  }

  lemma {:induction false} OneOmissionIsTooMany(seats: nat, k: nat)
    requires seats > 0 && k > 0
    ensures !FillsEverySeat(seats, k)
  {
    if seats == 1 {
      TwoSinglesElectNobody();
      Refutes(1, k, [[A], [B]], [Progress([], {}), Progress([], {A}), Progress([], {A, B})], []);
    } else {
      ManyLeaveASeatEmpty(seats);
      OneAgainstManyNameOne(seats);
      Refutes(seats, k, OneAgainstMany(seats), [Progress([], {}), Progress([A], {}), Progress([A], {B})], [A]);
    }
  }

  /** Every seat that a candidate could fill is filled, on all ballots that omit at most `k` candidates,
      exactly when those omit none. */
  lemma {:induction false} FillsEverySeatOnCompleteBallotsOnly(seats: nat, k: nat)
    requires seats > 0
    ensures FillsEverySeat(seats, k) <==> k == 0
  {
    CompleteBallotsAreEnough(seats);
    if k > 0 {
      OneOmissionIsTooMany(seats, k);
    }
  }
}
