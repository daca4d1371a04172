/** The count as written moves no surplus: which promises of proportionality that breaks. */
module SurplusNotTransferred {
  import opened Ballots
  import opened SingleTransferableVote
  import opened SingleTransferableVoteTheorems

  /** The ballot lists a candidate of `S`. */
  ghost function Lists(S: set<Id>): Ballot -> bool {
    b => exists c :: c in b && c in S
  }

  /** Whatever the ballots, a coalition of a quota gets one of its candidates elected. */
  ghost predicate CoalitionsRepresented(seats: nat) {
    forall bs, trace, elected, S ::
      Elects(bs, seats, trace, elected) && Coalition(bs, Quota(|bs|, seats), S)
      ==> exists c :: c in S && c in elected
  }

  /** Whatever the ballots, the candidates of `S` win no more seats than the ballots that list
      any of them hold quotas. */
  ghost predicate NobodyOverRepresented(seats: nat) {
    forall bs, trace, elected, S: set<Id> :: Elects(bs, seats, trace, elected) ==>
      WithinShare(bs, Quota(|bs|, seats), elected, S)
  }

  ghost predicate WithinShare(bs: seq<Ballot>, q: nat, elected: seq<Id>, S: set<Id>) {
    |Elements(elected) * S| * q <= Count(bs, Lists(S))
  }

  // ---- Two voters against a slate ----

  const A: Id := Uuid(0)
  const B: Id := Uuid(1)

  function Slate(n: nat): Ballot {
    if n == 0 then [] else Slate(n - 1) + [Uuid(n + 1)]
  }

  lemma {:induction false} SlateIs(n: nat)
    ensures |Slate(n)| == n
    ensures forall i :: 0 <= i < n ==> Slate(n)[i] == Uuid(i + 2)
    ensures Distinct(Slate(n)) && A !in Slate(n) && B !in Slate(n)
  {
    if n > 0 {
      SlateIs(n - 1);
    }
  }

  function Copies(b: Ballot, n: nat): seq<Ballot> {
    if n == 0 then [] else Copies(b, n - 1) + [b]
  }

  /** Two voters back A and B, one each way; `seats + 1` voters share one slate. */
  function TwoAgainstASlate(seats: nat): seq<Ballot> {
    [[A, B], [B, A]] + Copies(Slate(seats), seats + 1)
  }

  lemma {:induction false} CountCopies(front: seq<Ballot>, b: Ballot, n: nat, p: Ballot -> bool)
    ensures |Copies(b, n)| == n
    ensures Count(front + Copies(b, n), p) == Count(front, p) + if p(b) then n else 0
  {
    if n == 0 {
      assert front + Copies(b, n) == front;
    } else {
      CountCopies(front, b, n - 1, p);
      var bs := front + Copies(b, n);
      assert bs[..|bs| - 1] == front + Copies(b, n - 1);
    }
  }

  lemma {:induction false} CountTwo(x: Ballot, y: Ballot, p: Ballot -> bool)
    ensures Count([x, y], p) == (if p(x) then 1 else 0) + if p(y) then 1 else 0
  {
    assert [x, y][..1] == [x];
    assert Count([x], p) == if p(x) then 1 else 0;
  }

  lemma {:induction false} CountTwoAgainstASlate(seats: nat, p: Ballot -> bool)
    ensures |TwoAgainstASlate(seats)| == seats + 3
    ensures Count(TwoAgainstASlate(seats), p) ==
            (if p([A, B]) then 1 else 0) + (if p([B, A]) then 1 else 0) + if p(Slate(seats)) then seats + 1 else 0
  {
    CountTwo([A, B], [B, A], p);
    CountCopies([[A, B], [B, A]], Slate(seats), seats + 1, p);
  }

  lemma {:induction false} QuotaOfTwo(seats: nat)
    requires seats >= 2
    ensures Quota(|TwoAgainstASlate(seats)|, seats) == 2
  {
    CountTwoAgainstASlate(seats, IsMarked());
    QuotaIsLeast(seats + 3, seats, 2);
    QuotaIsLeast(seats + 3, seats, 1);
  }

  lemma {:induction false} TopAfter(b: Ballot, i: nat, out: set<Id>)
    requires i < |b| && b[i] !in out && forall k :: 0 <= k < i ==> b[k] in out
    ensures Top(b, out) == Some(b[i])
  {
    if i > 0 {
      TopAfter(b[1..], i - 1, out);
    }
  }

  /** When the first `i` of the slate are elected, only the next one has two votes or more. */
  lemma {:induction false} SlateVotes(seats: nat, i: nat, c: Id)
    requires i < seats && |Slate(seats)| == seats
    ensures MeetsQuota(TwoAgainstASlate(seats), 2, Elements(Slate(seats)[..i]), c) <==> c == Slate(seats)[i]
  {
    var slate := Slate(seats);
    var out := Elements(slate[..i]);
    SlateIs(seats);
    forall k | 0 <= k < i ensures slate[k] in out {
      assert slate[k] == slate[..i][k];
    }
    TopAfter(slate, i, out);
    assert Top([A, B], out) == Some(A) && Top([B, A], out) == Some(B);
    CountTwoAgainstASlate(seats, CountsFor(c, out));
    assert slate[i] in slate;
  }

  lemma {:induction false} SlateRound(seats: nat, i: nat)
    requires i < seats && |Slate(seats)| == seats
    ensures Round(TwoAgainstASlate(seats), seats, 2, Progress(Slate(seats)[..i], {}),
                  Progress(Slate(seats)[..i + 1], {}))
  {
    var bs, slate := TwoAgainstASlate(seats), Slate(seats);
    var s := Progress(slate[..i], {});
    assert Out(s) == Elements(slate[..i]);
    forall c ensures MeetsQuota(bs, 2, Out(s), c) <==> c == slate[i] {
      SlateVotes(seats, i, c);
    }
    assert IsBatch(bs, seats, 2, s, [slate[i]]);
    assert slate[..i + 1] == slate[..i] + [slate[i]];
  }

  lemma {:induction false} SlateTrace(seats: nat, i: nat) returns (trace: seq<Progress>)
    requires i <= seats && |Slate(seats)| == seats
    ensures Run(TwoAgainstASlate(seats), seats, 2, trace)
    ensures trace[|trace| - 1] == Progress(Slate(seats)[..i], {})
  {
    if i == 0 {
      trace := [Progress([], {})];
    } else {
      var front := SlateTrace(seats, i - 1);
      SlateRound(seats, i - 1);
      trace := front + [Progress(Slate(seats)[..i], {})];
      assert trace[..|front|] == front;
    }
  }

  /** The slate takes every seat: each of its ballots keeps full weight after each election. */
  lemma {:induction false} SlateSweeps(seats: nat) returns (trace: seq<Progress>)
    requires seats >= 2
    ensures Elects(TwoAgainstASlate(seats), seats, trace, Slate(seats))
  {
    SlateIs(seats);
    QuotaOfTwo(seats);
    trace := SlateTrace(seats, seats);
    assert Slate(seats)[..seats] == Slate(seats);
  }

  lemma {:induction false} PairIsCoalition(seats: nat)
    ensures Coalition(TwoAgainstASlate(seats), 2, {A, B})
  {
    CountTwoAgainstASlate(seats, IsSolid({A, B}));
    var x, y := [A, B], [B, A];
    assert x[..2] == x && y[..2] == y;
    assert x[0] in x && x[1] in x && y[0] in y && y[1] in y;
    assert Elements(x) == {A, B} && Elements(y) == {A, B};
    assert Solid(x, {A, B}) && Solid(y, {A, B});
  }

  // ---- One seat is the only safe number ----

  lemma {:induction false} OutsiderBelowQuota(bs: seq<Ballot>, q: nat, S: set<Id>, out: set<Id>, c: Id)
    requires 2 * q > |bs| && Coalition(bs, q, S) && !(S <= out) && c !in S
    ensures !MeetsQuota(bs, q, out, c)
  {
    forall b | b in bs && IsSolid(S)(b) ensures IsLive(out)(b) && !CountsFor(c, out)(b) {
      SolidTop(b, S, out);
    }
    CountSplit(bs, CountsFor(c, out), IsSolid(S), IsLive(out));
    CountAtMost(bs, IsLive(out));
  }

  lemma {:induction false} OneSeatRound(bs: seq<Ballot>, q: nat, s: Progress, t: Progress, S: set<Id>)
    requires 2 * q > |bs| && Coalition(bs, q, S) && !(S <= s.eliminated) && Round(bs, 1, q, s, t)
    ensures forall c :: c in t.elected ==> c in S
  {
    assert s.elected == [] && Out(s) == s.eliminated;
    if ElectsBatch(bs, 1, q, s, t) {
      var batch :| IsBatch(bs, 1, q, s, batch) && t == Progress(s.elected + batch, s.eliminated);
      forall c | c in batch ensures c in S {
        if c !in S {
          OutsiderBelowQuota(bs, q, S, Out(s), c);
        }
      }
    }
  }

  lemma {:induction false} OneSeatGoesToCoalition(bs: seq<Ballot>, q: nat, trace: seq<Progress>, S: set<Id>)
    requires 2 * q > |bs| && q > 0 && Run(bs, 1, q, trace) && Coalition(bs, q, S)
    ensures forall c :: c in trace[|trace| - 1].elected ==> c in S
  {
    if |trace| > 1 {
      CoalitionNeverDiesOut(bs, 1, q, trace[..|trace| - 1], S);
      OneSeatRound(bs, q, trace[|trace| - 2], trace[|trace| - 1], S);
    }
  }

  /** As written, the count represents every quota coalition exactly when there is one seat. */
  lemma {:induction false} CoalitionsRepresentedForOneSeatOnly(seats: nat)
    requires seats > 0
    ensures CoalitionsRepresented(seats) <==> seats == 1
  {
    if seats == 1 {
      forall bs, trace, elected, S | Elects(bs, 1, trace, elected) && Coalition(bs, Quota(|bs|, 1), S)
        ensures exists c :: c in S && c in elected
      {
        CoalitionElectsOrSeatsAreFull(bs, 1, trace, elected, S);
        QuotaIsLeast(|bs|, 1, Quota(|bs|, 1));
        OneSeatGoesToCoalition(bs, Quota(|bs|, 1), trace, S);
        if |elected| == 1 {
          assert elected[0] in elected;
        }
      }
    } else {
      var trace := SlateSweeps(seats);
      PairIsCoalition(seats);
      QuotaOfTwo(seats);
      SlateIs(seats);
    }
  }

  // ---- Few outsiders are safe too ----

  /** Whatever the ballots, a coalition of a quota with at most `m` candidates outside it is represented. */
  ghost predicate RepresentedAgainst(seats: nat, m: nat) {
    forall bs, trace, elected, S ::
      Elects(bs, seats, trace, elected) && Coalition(bs, Quota(|bs|, seats), S) && |Candidates(bs) - S| <= m
      ==> exists c :: c in S && c in elected
  }

  lemma {:induction false} FewOutsidersLeaveASeat(bs: seq<Ballot>, seats: nat, trace: seq<Progress>, elected: seq<Id>,
                                                  S: set<Id>)
    requires Elects(bs, seats, trace, elected) && Coalition(bs, Quota(|bs|, seats), S) && |Candidates(bs) - S| < seats
    ensures exists c :: c in S && c in elected
  {
    CoalitionElectsOrSeatsAreFull(bs, seats, trace, elected, S);
    if forall c :: c in S ==> c !in elected {
      RunsAreWellFormed(bs, seats, Quota(|bs|, seats), trace);
      SizeOfDistinct(elected);
      SubsetSize(Elements(elected), Candidates(bs) - S);
    }
  }

  lemma {:induction false} InCopies(b: Ballot, n: nat)
    ensures forall x :: x in Copies(b, n) ==> x == b
  {
    if n > 0 {
      InCopies(b, n - 1);
    }
  }

  lemma {:induction false} SlateAreTheOutsiders(seats: nat)
    ensures |Candidates(TwoAgainstASlate(seats)) - {A, B}| <= seats
  {
    SlateIs(seats);
    InCopies(Slate(seats), seats + 1);
    SizeOfDistinct(Slate(seats));
    SubsetSize(Candidates(TwoAgainstASlate(seats)) - {A, B}, Elements(Slate(seats)));
  }

  /** As written, quota coalitions are safe against up to `m` outsiders exactly when those cannot fill
      the seats, or there is one seat. */
  lemma {:induction false} RepresentedExactlyAgainstFewerThanSeats(seats: nat, m: nat)
    requires seats > 0
    ensures RepresentedAgainst(seats, m) <==> seats == 1 || m < seats
  {
    if seats == 1 {
      CoalitionsRepresentedForOneSeatOnly(1);
    } else if m < seats {
      forall bs, trace, elected, S
        | Elects(bs, seats, trace, elected) && Coalition(bs, Quota(|bs|, seats), S) && |Candidates(bs) - S| <= m
        ensures exists c :: c in S && c in elected
      {
        FewOutsidersLeaveASeat(bs, seats, trace, elected, S);
      }
    } else {
      var trace := SlateSweeps(seats);
      PairIsCoalition(seats);
      QuotaOfTwo(seats);
      SlateIs(seats);
      SlateAreTheOutsiders(seats);
    }
  }

  lemma {:induction false} ElectedHadQuota(bs: seq<Ballot>, seats: nat, q: nat, trace: seq<Progress>, c: Id, S: set<Id>)
    requires Run(bs, seats, q, trace) && c in trace[|trace| - 1].elected && c in S
    ensures Count(bs, Lists(S)) >= q
  {
    var s, t := trace[|trace| - 2], trace[|trace| - 1];
    if c in s.elected {
      ElectedHadQuota(bs, seats, q, trace[..|trace| - 1], c, S);
    } else {
      assert MeetsQuota(bs, q, Out(s), c);
      CountMono(bs, CountsFor(c, Out(s)), Lists(S));
    }
  }

  lemma {:induction false} OneSeatIsWithinShare(bs: seq<Ballot>, q: nat, trace: seq<Progress>, S: set<Id>)
    requires q > 0 && Run(bs, 1, q, trace)
    ensures WithinShare(bs, q, trace[|trace| - 1].elected, S)
  {
    var elected := trace[|trace| - 1].elected;
    RunsAreWellFormed(bs, 1, q, trace);
    SizeOfDistinct(elected);
    var common := Elements(elected) * S;
    SubsetSize(common, Elements(elected));
    if common == {} {
      assert |common| * q == 0;
    } else {
      var c :| c in common;
      ElectedHadQuota(bs, 1, q, trace, c, S);
      assert |common| == 1;
    }
  }

  lemma {:induction false} SlateIsOverShare(seats: nat)
    requires seats >= 2
    ensures !WithinShare(TwoAgainstASlate(seats), 2, Slate(seats), Elements(Slate(seats)))
  {
    var S := Elements(Slate(seats));
    SlateIs(seats);
    SizeOfDistinct(Slate(seats));
    assert S * S == S;
    CountTwoAgainstASlate(seats, Lists(S));
    assert !Lists(S)([A, B]) && !Lists(S)([B, A]);
  }

  /** As written, the count keeps groups to their share exactly when there is one seat. */
  lemma {:induction false} OverRepresentationForSeveralSeats(seats: nat)
    requires seats > 0
    ensures NobodyOverRepresented(seats) <==> seats == 1
  {
    if seats == 1 {
      forall bs, trace, elected, S: set<Id> | Elects(bs, 1, trace, elected)
        ensures WithinShare(bs, Quota(|bs|, 1), elected, S)
      {
        OneSeatIsWithinShare(bs, Quota(|bs|, 1), trace, S);
      }
    } else {
      var trace := SlateSweeps(seats);
      QuotaOfTwo(seats);
      SlateIsOverShare(seats);
    }
  }
}
