/** What moving that line would cost. Ratios are taken from the counts of the start of the round, so a
    ballot that moves from one candidate elected in a round to another one loses weight twice. */
module SurplusCost {
  import opened Ballots
  import opened WeightedBallots
  import opened SingleTransferableVote
  import opened SingleTransferableVoteTheorems
  import opened SurplusNotTransferred
  import opened SurplusTransferred

  const C: Id := Uuid(2)

  const AHEAD: Ballot := [A, B, C]
  const BEHIND: Ballot := [B, C, A]

  /** Six voters rank all three candidates; there are three seats, and the quota is 2. */
  const VOTERS: seq<Ballot> := [] + Copies(AHEAD, 4) + Copies(BEHIND, 2)

  function Full(bs: seq<Ballot>): (ws: seq<Weighted>)
    ensures |ws| == |bs| && forall i :: 0 <= i < |bs| ==> ws[i] == Weighted(bs[i], 1.0)
  {
    if |bs| == 0 then [] else Full(bs[..|bs| - 1]) + [Weighted(bs[|bs| - 1], 1.0)]
  }

  const START: seq<Weighted> := Full(VOTERS)

  lemma {:induction false} FullIs(bs: seq<Ballot>)
    ensures Prefs(Full(bs)) == bs && AllFull(Full(bs))
  {
    var ps := Prefs(Full(bs));
    assert |ps| == |bs| && forall i :: 0 <= i < |bs| ==> ps[i] == bs[i];
  }

  lemma {:induction false} CountSix(p: Ballot -> bool)
    ensures |VOTERS| == 6
    ensures Count(VOTERS, p) == (if p(AHEAD) then 4 else 0) + if p(BEHIND) then 2 else 0
  {
    CountCopies([], AHEAD, 4, p);
    CountCopies([] + Copies(AHEAD, 4), BEHIND, 2, p);
  }

  lemma {:induction false} OnlyTwoKinds(b: Ballot)
    requires b in VOTERS
    ensures b == AHEAD || b == BEHIND
  {
    InCopies(AHEAD, 4);
    InCopies(BEHIND, 2);
  }

  lemma {:induction false} StartVotes(c: Id)
    ensures Weight(START, CountsFor(c, {})) == if c == A then 4.0 else if c == B then 2.0 else 0.0
  {
    FullIs(VOTERS);
    FullWeightIsCount(START, CountsFor(c, {}));
    CountSix(CountsFor(c, {}));
  }

  /** What the round does: A is elected on 4 votes, and then B on the 2 it had at the start. */
  function FirstRound(): Holding {
    Elect(Elect(Holding(START, [], {}), A, Times(Ratio(2, 4.0))), B, Times(Ratio(2, 2.0)))
  }

  lemma {:induction false} NothingWeighsNothing(ws: seq<Weighted>, p: Ballot -> bool)
    requires forall i :: 0 <= i < |ws| ==> ws[i].weight == 0.0
    ensures Weight(ws, p) == 0.0
  {
    if |ws| > 0 {
      NothingWeighsNothing(ws[..|ws| - 1], p);
    }
  }

  lemma {:induction false} BothKindsMoveToB()
    ensures Top(AHEAD, {A}) == Some(B) && Top(BEHIND, {A}) == Some(B)
  {
  }

  /** A candidate elected on as many votes as the quota keeps nothing of the ballots that count for it by
      then, even when they are more. */
  lemma {:induction false} NothingIsLeft(ws: seq<Weighted>, out: set<Id>, c: Id)
    requires forall i :: 0 <= i < |ws| ==> Top(ws[i].prefs, out) == Some(c)
    ensures forall i :: 0 <= i < |ws| ==> Transfer(ws, out, c, Times(Ratio(2, 2.0)))[i].weight == 0.0
  {
    var r := Transfer(ws, out, c, Times(Ratio(2, 2.0)));
    forall i | 0 <= i < |ws| ensures r[i].weight == 0.0 {
      assert r[i] == Scaled(ws[i], out, c, Times(Ratio(2, 2.0)));
      assert Times(Ratio(2, 2.0))(ws[i].weight) == ws[i].weight * 0.0;
    }
  }

  lemma {:induction false} AllMoveToB(scale: real -> real, i: nat)
    requires i < |Transfer(START, {}, A, scale)|
    ensures Top(Transfer(START, {}, A, scale)[i].prefs, {A}) == Some(B)
  {
    var w := Transfer(START, {}, A, scale)[i];
    assert w == Scaled(START[i], {}, A, scale) && w.prefs == VOTERS[i];
    OnlyTwoKinds(VOTERS[i]);
    BothKindsMoveToB();
  }

  lemma {:induction false} EverybodyIsSpent()
    ensures FirstRound().elected == [A, B] && FirstRound().eliminated == {}
    ensures forall i :: 0 <= i < |FirstRound().ws| ==> FirstRound().ws[i].weight == 0.0
  {
    var h := Holding(START, [], {});
    var t := Elect(h, A, Times(Ratio(2, 4.0)));
    assert OutOf(h) == {} && OutOf(t) == {A};
    forall i | 0 <= i < |t.ws| ensures Top(t.ws[i].prefs, {A}) == Some(B) {
      AllMoveToB(Times(Ratio(2, 4.0)), i);
    }
    NothingIsLeft(t.ws, {A}, B);
  }

  lemma {:induction false} QuotaOfSix()
    ensures Quota(|VOTERS|, 3) == 2
  {
    CountSix(IsMarked());
    QuotaIsLeast(6, 3, 1);
    QuotaIsLeast(6, 3, 2);
  }

  lemma {:induction false} SixAreSolid()
    ensures Count(VOTERS, IsSolid({A, B, C})) == 6
  {
    BothKindsListAll();
    CountSix(IsSolid({A, B, C}));
  }

  lemma {:induction false} NobodyAfterAll()
    ensures Active(VOTERS, {A, B, C}) == 0
  {
    BothKindsListAll();
    CountSix(IsLive({A, B, C}));
  }

  lemma {:induction false} OutAfterFirstRound()
    ensures OutOf(FirstRound()) == {A, B}
  {
    EverybodyIsSpent();
  }

  /** Three candidates backed solidly by three quotas win two of the three seats and the third stays
      empty: C, the last of them, has no weight left, is eliminated, and nobody counts any more. */
  lemma {:induction false} TransferLosesASeat()
    ensures Quota(|VOTERS|, 3) == 2
    ensures Complete(VOTERS) && Count(VOTERS, IsSolid({A, B, C})) == 3 * 2
    ensures FirstRound().elected == [A, B]
    ensures Weight(FirstRound().ws, CountsFor(C, {A, B})) == 0.0 && OutOf(FirstRound()) == {A, B}
    ensures Active(VOTERS, {A, B, C}) == 0
  {
    QuotaOfSix();
    SixAreComplete();
    SixAreSolid();
    EverybodyIsSpent();
    NothingWeighsNothing(FirstRound().ws, CountsFor(C, {A, B}));
    OutAfterFirstRound();
    NobodyAfterAll();
  }

  lemma {:induction false} BothKindsListAll()
    ensures Elements(AHEAD) == {A, B, C} && Elements(BEHIND) == {A, B, C}
    ensures Solid(AHEAD, {A, B, C}) && Solid(BEHIND, {A, B, C})
  {
    assert AHEAD[0] in AHEAD && AHEAD[1] in AHEAD && AHEAD[2] in AHEAD;
    assert BEHIND[0] in BEHIND && BEHIND[1] in BEHIND && BEHIND[2] in BEHIND;
    assert AHEAD[..3] == AHEAD && BEHIND[..3] == BEHIND;
  }

  lemma {:induction false} CandidatesWhenAllListed(bs: seq<Ballot>, all: set<Id>)
    requires |bs| > 0 && forall b :: b in bs ==> Elements(b) == all
    ensures Candidates(bs) == all
  {
    forall c | c in Candidates(bs) ensures c in all {
      var b :| b in bs && c in b;
      assert c in Elements(b);
    }
    forall c | c in all ensures c in Candidates(bs) {
      assert c in Elements(bs[0]);
    }
  }

  lemma {:induction false} SixAreComplete()
    ensures Complete(VOTERS) && Candidates(VOTERS) == {A, B, C}
  {
    CountSix(IsMarked());
    BothKindsListAll();
    forall b | b in VOTERS ensures Elements(b) == {A, B, C} {
      OnlyTwoKinds(b);
    }
    CandidatesWhenAllListed(VOTERS, {A, B, C});
  }

  /** As written, the count fills all three seats from the same ballots. */
  lemma {:induction false} AsWrittenAllAreElected(trace: seq<Progress>, elected: seq<Id>)
    requires SingleTransferableVote.Elects(VOTERS, 3, trace, elected)
    ensures |elected| == 3
  {
    SixAreComplete();
    CompleteBallotsFillEverySeat(VOTERS, 3, trace, elected);
    assert |{A, B, C}| == 3;
  }
}
