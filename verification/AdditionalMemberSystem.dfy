/** The top-up seats of the Additional Member System: the D'Hondt loop of `_results_ams` in
    backend/app/service/result_service.py. Quotients are compared by cross-multiplication. */
module AdditionalMemberSystem {
  import opened Arithmetic
  import opened Ballots
  import opened Dictionaries

  /** Constituency seats and top-up seats of a party. */
  function SeatsOf(won: map<Id, nat>, topup: map<Id, nat>, p: Id): nat {
    At(won, p) + At(topup, p)
  }

  /** `x / (i + 1) <= y / (j + 1)`. */
  predicate QuotientAtMost(x: nat, i: nat, y: nat, j: nat) {
    x * (j + 1) <= y * (i + 1)
  }

  lemma {:induction false} QuotientTransitive(x: nat, i: nat, y: nat, j: nat, z: nat, k: nat)
    requires QuotientAtMost(x, i, y, j) && QuotientAtMost(y, j, z, k)
    ensures QuotientAtMost(x, i, z, k)
  {
    calc {
      x * (k + 1) * (j + 1);
      == { Swap(x, k + 1, j + 1); }
      x * (j + 1) * (k + 1);
      <= { MulMono(k + 1, x * (j + 1), y * (i + 1)); }
      y * (i + 1) * (k + 1);
      == { Swap(y, i + 1, k + 1); }
      y * (k + 1) * (i + 1);
      <= { MulMono(i + 1, y * (k + 1), z * (j + 1)); }
      z * (j + 1) * (i + 1);
      == { Swap(z, j + 1, i + 1); }
      z * (i + 1) * (j + 1);
    }
    Cancel(x * (k + 1), z * (i + 1), j + 1);
  }

  lemma {:induction false} Swap(a: int, b: int, c: int)
    ensures a * b * c == a * c * b
  {
  }

  lemma {:induction false} Cancel(x: int, y: int, k: nat)
    requires k > 0 && x * k <= y * k
    ensures x <= y
  {
    assert (y + 1) * k == y * k + k;
    if x > y {
      MulMono(k, y + 1, x);
    }
  }

  /** Nobody has a larger next quotient than `best`. */
  ghost predicate IsBest(keys: seq<Id>, votes: map<Id, nat>, won: map<Id, nat>, topup: map<Id, nat>, best: Id) {
    best in keys && forall q :: q in keys ==>
      QuotientAtMost(At(votes, q), SeatsOf(won, topup, q), At(votes, best), SeatsOf(won, topup, best))
  }

  /** `max(regional_party_votes.keys(), key=...)`: the first party with the largest quotient. */
  method BestParty(keys: seq<Id>, votes: map<Id, nat>, won: map<Id, nat>, topup: map<Id, nat>) returns (best: Id)
    requires |keys| > 0
    ensures IsBest(keys, votes, won, topup, best)
  {
    best := keys[0];
    for i := 1 to |keys|
      invariant IsBest(keys[..i], votes, won, topup, best)
    {
      var p := keys[i];
      if !QuotientAtMost(At(votes, p), SeatsOf(won, topup, p), At(votes, best), SeatsOf(won, topup, best)) {
        forall q | q in keys[..i]
          ensures QuotientAtMost(At(votes, q), SeatsOf(won, topup, q), At(votes, p), SeatsOf(won, topup, p))
        {
          QuotientTransitive(At(votes, q), SeatsOf(won, topup, q), At(votes, best), SeatsOf(won, topup, best),
                             At(votes, p), SeatsOf(won, topup, p));
        }
        best := p;
      }
    }
    assert keys[..|keys|] == keys;
  }

  /** D'Hondt: a top-up seat that `p` holds was worth at least as many votes per seat to `p` as
      one more seat would be to any other list. */
  ghost predicate IsDHondt(keys: seq<Id>, votes: map<Id, nat>, won: map<Id, nat>, topup: map<Id, nat>) {
    forall p, q :: p in keys && q in keys && At(topup, p) > 0 ==> Earned(votes, won, topup, p, q)
  }

  /** `votes[p] / seats[p] >= votes[q] / (seats[q] + 1)`. */
  ghost predicate Earned(votes: map<Id, nat>, won: map<Id, nat>, topup: map<Id, nat>, p: Id, q: Id) {
    At(votes, p) * (SeatsOf(won, topup, q) + 1) >= At(votes, q) * SeatsOf(won, topup, p)
  }

  lemma {:induction false} AwardKeepsDHondt(keys: seq<Id>, votes: map<Id, nat>, won: map<Id, nat>, topup: map<Id, nat>,
                                            best: Id)
    requires IsDHondt(keys, votes, won, topup) && IsBest(keys, votes, won, topup, best)
    ensures IsDHondt(keys, votes, won, topup[best := At(topup, best) + 1])
  {
    var after := topup[best := At(topup, best) + 1];
    forall p, q | p in keys && q in keys && At(after, p) > 0 ensures Earned(votes, won, after, p, q) {
      EarnedAfterAward(votes, won, topup, best, p, q);
    }
  }

  lemma {:induction false} EarnedAfterAward(votes: map<Id, nat>, won: map<Id, nat>, topup: map<Id, nat>, best: Id,
                                            p: Id, q: Id)
    requires p != best ==> Earned(votes, won, topup, p, q)
    requires p == best ==> QuotientAtMost(At(votes, q), SeatsOf(won, topup, q), At(votes, p), SeatsOf(won, topup, p))
    ensures Earned(votes, won, topup[best := At(topup, best) + 1], p, q)
  {
    var after := topup[best := At(topup, best) + 1];
    var s, t := SeatsOf(won, topup, q), SeatsOf(won, after, q);
    assert s <= t;
    var sp := SeatsOf(won, after, p);
    assert sp == SeatsOf(won, topup, p) + if p == best then 1 else 0;
    StillEarned(At(votes, p), s, t, At(votes, q), sp);
  }

  lemma {:induction false} StillEarned(v: nat, s: nat, t: nat, w: nat, sp: nat)
    requires v * (s + 1) >= w * sp && s <= t
    ensures v * (t + 1) >= w * sp
  {
    MulMono(v, s + 1, t + 1);
  }

  /** The loop over the top-up seats: `rounds` seats go, one by one, to the best quotient. */
  method AllocateTopUp(keys: seq<Id>, votes: map<Id, nat>, won: map<Id, nat>, rounds: nat) returns (topup: map<Id, nat>)
    requires Distinct(keys) && |keys| > 0
    ensures topup.Keys <= Elements(keys)
    ensures SumOver(keys, topup) == rounds
    ensures IsDHondt(keys, votes, won, topup)
  {
    topup := map[];
    NothingYet(keys);
    for i := 0 to rounds
      invariant topup.Keys <= Elements(keys)
      invariant SumOver(keys, topup) == i
      invariant IsDHondt(keys, votes, won, topup)
    {
      var best := BestParty(keys, votes, won, topup);
      SumOverBump(keys, topup, best);
      AwardKeepsDHondt(keys, votes, won, topup, best);
      topup := topup[best := At(topup, best) + 1];
    }
  }

  lemma {:induction false} NothingYet(keys: seq<Id>)
    ensures SumOver(keys, map[]) == 0
  {
    if |keys| > 0 {
      NothingYet(keys[..|keys| - 1]);
    }
  }

  // ---- The allocation is determined up to ties ----

  /** Two D'Hondt allocations of the same seats part only where two quotients are equal. */
  lemma {:induction false} DHondtDiffersOnlyAtTies(keys: seq<Id>, votes: map<Id, nat>, won: map<Id, nat>,
                                t: map<Id, nat>, u: map<Id, nat>, p: Id, q: Id)
    requires IsDHondt(keys, votes, won, t) && IsDHondt(keys, votes, won, u)
    requires p in keys && q in keys && At(t, p) > At(u, p) && At(t, q) < At(u, q)
    ensures At(votes, p) * SeatsOf(won, u, q) == At(votes, q) * SeatsOf(won, t, p)
  {
    assert Earned(votes, won, t, p, q) && Earned(votes, won, u, q, p);
    SqueezedTie(At(votes, p), SeatsOf(won, t, p), SeatsOf(won, u, p), At(votes, q), SeatsOf(won, t, q),
                SeatsOf(won, u, q));
  }

  lemma {:induction false} SqueezedTie(vp: nat, tp: nat, up: nat, vq: nat, tq: nat, uq: nat)
    requires up < tp && tq < uq
    requires vp * (tq + 1) >= vq * tp && vq * (up + 1) >= vp * uq
    ensures vp * uq == vq * tp
  {
    MulMono(vp, tq + 1, uq);
    MulMono(vq, up + 1, tp);
  }

  lemma {:induction false} SomebodyHasFewer(keys: seq<Id>, t: map<Id, nat>, u: map<Id, nat>, p: Id) returns (q: Id)
    requires p in keys && At(t, p) > At(u, p) && SumOver(keys, t) <= SumOver(keys, u)
    ensures q in keys && At(t, q) < At(u, q)
  {
    var front, last := keys[..|keys| - 1], keys[|keys| - 1];
    if At(t, last) < At(u, last) {
      q := last;
    } else if p in front {
      q := SomebodyHasFewer(front, t, u, p);
    } else {
      q := SomebodyHasFewerThanSum(front, t, u);
    }
  }

  lemma {:induction false} SomebodyHasFewerThanSum(keys: seq<Id>, t: map<Id, nat>, u: map<Id, nat>) returns (q: Id)
    requires SumOver(keys, t) < SumOver(keys, u)
    ensures q in keys && At(t, q) < At(u, q)
  {
    var front, last := keys[..|keys| - 1], keys[|keys| - 1];
    if At(t, last) < At(u, last) {
      q := last;
    } else {
      q := SomebodyHasFewerThanSum(front, t, u);
    }
  }

  /** No two lists ever meet at the same quotient. */
  ghost predicate NoTies(keys: seq<Id>, votes: map<Id, nat>) {
    forall p, q, i: nat, j: nat :: p in keys && q in keys && p != q && i > 0 && j > 0 ==>
      !SameQuotient(votes, p, i, q, j)
  }

  ghost predicate SameQuotient(votes: map<Id, nat>, p: Id, i: nat, q: Id, j: nat) {
    At(votes, p) * j == At(votes, q) * i
  }

  /** With more seats to give out a list can only be worse off where two lists are tied. */
  lemma {:induction false} MoreSeatsHurtOnlyAtTies(keys: seq<Id>, votes: map<Id, nat>, won: map<Id, nat>,
                                                   t: map<Id, nat>, u: map<Id, nat>, p: Id)
    requires IsDHondt(keys, votes, won, t) && IsDHondt(keys, votes, won, u)
    requires SumOver(keys, t) <= SumOver(keys, u) && p in keys
    ensures At(t, p) > At(u, p) ==>
      exists q :: q in keys && At(t, q) < At(u, q) && SameQuotient(votes, p, SeatsOf(won, t, p), q, SeatsOf(won, u, q))
  {
    if At(t, p) > At(u, p) {
      var q := SomebodyHasFewer(keys, t, u, p);
      DHondtDiffersOnlyAtTies(keys, votes, won, t, u, p, q);
    }
  }

  /** House monotonicity: without ties, running more rounds never removes a seat. */
  lemma {:induction false} MoreSeatsNeverHurt(keys: seq<Id>, votes: map<Id, nat>, won: map<Id, nat>, t: map<Id, nat>,
                                              u: map<Id, nat>, p: Id)
    requires IsDHondt(keys, votes, won, t) && IsDHondt(keys, votes, won, u)
    requires SumOver(keys, t) <= SumOver(keys, u) && NoTies(keys, votes) && p in keys
    ensures At(t, p) <= At(u, p)
  {
    MoreSeatsHurtOnlyAtTies(keys, votes, won, t, u, p);
  }

  /** Without ties there is one D'Hondt allocation, so the order of the dictionary is irrelevant. */
  lemma {:induction false} DHondtIsUnique(keys: seq<Id>, votes: map<Id, nat>, won: map<Id, nat>, t: map<Id, nat>,
                                          u: map<Id, nat>, p: Id)
    requires IsDHondt(keys, votes, won, t) && IsDHondt(keys, votes, won, u)
    requires SumOver(keys, t) == SumOver(keys, u) && NoTies(keys, votes) && p in keys
    ensures At(t, p) == At(u, p)
  {
    MoreSeatsNeverHurt(keys, votes, won, t, u, p);
    MoreSeatsNeverHurt(keys, votes, won, u, t, p);
  }

  // ---- Lower quota ----

  /** The lists' constituency seats and top-up seats together. */
  function HouseSize(keys: seq<Id>, won: map<Id, nat>, topup: map<Id, nat>): nat {
    SumOver(keys, won) + SumOver(keys, topup)
  }

  /** A list's share of `M` seats by its part of `V` votes, rounded down. */
  function Share(v: nat, V: nat, M: nat): nat
    requires V > 0
  {
    v * M / V
  }

  lemma {:induction false} ShareBounds(v: nat, V: nat, M: nat)
    requires V > 0
    ensures Share(v, V, M) * V <= v * M < (Share(v, V, M) + 1) * V
  {
    Rounding(v * M, V);
  }

  lemma {:induction false} Rounding(x: nat, k: nat)
    requires k > 0
    ensures x / k * k <= x < (x / k + 1) * k
  {
  }

  /** What a list is due: its share, or its constituency seats when it has won more. */
  function Due(votes: map<Id, nat>, won: map<Id, nat>, V: nat, M: nat): Id -> nat
    requires V > 0
  {
    p => if At(won, p) > Share(At(votes, p), V, M) then At(won, p) else Share(At(votes, p), V, M)
  }

  function SumOf(keys: seq<Id>, f: Id -> nat): nat {
    if |keys| == 0 then 0 else SumOf(keys[..|keys| - 1], f) + f(keys[|keys| - 1])
  }

  ghost predicate GetsShare(votes: map<Id, nat>, won: map<Id, nat>, topup: map<Id, nat>, V: nat, M: nat, p: Id)
    requires V > 0
  {
    Share(At(votes, p), V, M) <= SeatsOf(won, topup, p)
  }

  lemma {:induction false} SeatsCoverSum(keys: seq<Id>, won: map<Id, nat>, topup: map<Id, nat>, f: Id -> nat)
    requires forall p :: p in keys ==> f(p) <= SeatsOf(won, topup, p)
    ensures SumOf(keys, f) <= HouseSize(keys, won, topup)
  {
    if |keys| > 0 {
      SeatsCoverSum(keys[..|keys| - 1], won, topup, f);
    }
  }

  /** Where seats reach the sum of `f` but one list is below it, another is above it. */
  lemma {:induction false} SomebodyAbove(keys: seq<Id>, won: map<Id, nat>, topup: map<Id, nat>, f: Id -> nat)
    requires SumOf(keys, f) < HouseSize(keys, won, topup)
             || (SumOf(keys, f) <= HouseSize(keys, won, topup)
                 && exists p :: p in keys && SeatsOf(won, topup, p) < f(p))
    ensures exists q :: q in keys && f(q) < SeatsOf(won, topup, q)
  {
    var front, last := keys[..|keys| - 1], keys[|keys| - 1];
    assert keys == front + [last];
    if SeatsOf(won, topup, last) <= f(last) {
      SomebodyAbove(front, won, topup, f);
    }
  }

  /** If `q` has more than its share and `p` a whole seat less, a seat earned by `q` was worth
      more to `p`. */
  lemma {:induction false} MisplacedSeat(vp: nat, sp: nat, vq: nat, sq: nat, V: nat, M: nat)
    requires (sp + 1) * V <= vp * M && sq * V > vq * M && V > 0
    ensures vq * (sp + 1) < vp * sq
  {
    if vq * (sp + 1) >= vp * sq {
      assert vp > 0;
      calc {
        vp * sq * V;
        <= { MulMono(V, vp * sq, vq * (sp + 1)); }
        vq * (sp + 1) * V;
        == { Regroup(vq, sp + 1, V); }
        (sp + 1) * V * vq;
        <= { MulMono(vq, (sp + 1) * V, vp * M); }
        vp * M * vq;
        == { Regroup(vp, M, vq); Regroup(vp, vq, M); Swap(vp, M, vq); }
        vp * vq * M;
        == { Regroup(vp, vq, M); }
        vq * M * vp;
        < { StrictMul(vp, vq * M, sq * V); }
        sq * V * vp;
        == { Regroup(vp, sq, V); }
        vp * sq * V;
      }
    }
  }

  lemma {:induction false} Regroup(a: int, b: int, c: int)
    ensures a * b * c == b * c * a
  {
  }

  lemma {:induction false} StrictMul(k: nat, x: int, y: int)
    requires x < y && k > 0
    ensures x * k < y * k
  {
  }

  lemma {:induction false} AboveDueEarnedIt(keys: seq<Id>, votes: map<Id, nat>, won: map<Id, nat>, topup: map<Id, nat>,
                         V: nat, M: nat, p: Id, q: Id)
    requires IsDHondt(keys, votes, won, topup) && V > 0 && p in keys && q in keys
    requires SeatsOf(won, topup, q) > Due(votes, won, V, M)(q)
    ensures GetsShare(votes, won, topup, V, M, p)
  {
    assert Earned(votes, won, topup, q, p);
    var sp, sq := SeatsOf(won, topup, p), SeatsOf(won, topup, q);
    if sp < Share(At(votes, p), V, M) {
      ShareBounds(At(votes, p), V, M);
      ShareBounds(At(votes, q), V, M);
      MulMono(V, sp + 1, Share(At(votes, p), V, M));
      MulMono(V, Share(At(votes, q), V, M) + 1, sq);
      MisplacedSeat(At(votes, p), sp, At(votes, q), sq, V, M);
    }
  }

  /** Every list ends with at least its share, rounded down, exactly when the seats of the house are
      enough for what the lists are due. Both sides of the test are known before the top-up. */
  lemma {:induction false} LowerQuotaExactlyWhen(keys: seq<Id>, votes: map<Id, nat>, won: map<Id, nat>,
                                                 topup: map<Id, nat>, rounds: nat)
    requires IsDHondt(keys, votes, won, topup) && SumOver(keys, topup) == rounds && SumOver(keys, votes) > 0
    ensures var V, M := SumOver(keys, votes), SumOver(keys, won) + rounds;
      (forall p :: p in keys ==> GetsShare(votes, won, topup, V, M, p)) <==> SumOf(keys, Due(votes, won, V, M)) <= M
  {
    var V, M := SumOver(keys, votes), SumOver(keys, won) + rounds;
    if forall p :: p in keys ==> GetsShare(votes, won, topup, V, M, p) {
      SeatsCoverSum(keys, won, topup, Due(votes, won, V, M));
    } else if SumOf(keys, Due(votes, won, V, M)) <= M {
      SomebodyAbove(keys, won, topup, Due(votes, won, V, M));
      var q :| q in keys && Due(votes, won, V, M)(q) < SeatsOf(won, topup, q);
      forall p | p in keys ensures GetsShare(votes, won, topup, V, M, p) {
        AboveDueEarnedIt(keys, votes, won, topup, V, M, p, q);
      }
    }
  }

  /** No list has won more constituency seats than its exact share of all the lists' seats. */
  ghost predicate NoOverhang(keys: seq<Id>, votes: map<Id, nat>, won: map<Id, nat>, topup: map<Id, nat>) {
    forall q :: q in keys ==> At(won, q) * SumOver(keys, votes) <= At(votes, q) * HouseSize(keys, won, topup)
  }

  lemma {:induction false} DueWithoutOverhang(keys: seq<Id>, votes: map<Id, nat>, won: map<Id, nat>, V: nat, M: nat)
    requires V > 0 && forall q :: q in keys ==> At(won, q) * V <= At(votes, q) * M
    ensures SumOf(keys, Due(votes, won, V, M)) * V <= SumOver(keys, votes) * M
  {
    if |keys| > 0 {
      var front, last := keys[..|keys| - 1], keys[|keys| - 1];
      DueWithoutOverhang(front, votes, won, V, M);
      ShareBounds(At(votes, last), V, M);
      var f := Due(votes, won, V, M);
      assert f(last) * V <= At(votes, last) * M;
      Distribute(SumOf(front, f), f(last), V);
      Distribute(SumOver(front, votes), At(votes, last), M);
    }
  }

  /** So it is without overhang: one seat more would be more than the exact share. */
  lemma {:induction false} LowerQuota(keys: seq<Id>, votes: map<Id, nat>, won: map<Id, nat>, topup: map<Id, nat>, p: Id,
                                      V: nat, M: nat)
    requires IsDHondt(keys, votes, won, topup) && NoOverhang(keys, votes, won, topup) && p in keys
    requires V == SumOver(keys, votes) > 0 && M == HouseSize(keys, won, topup)
    ensures (SeatsOf(won, topup, p) + 1) * V > At(votes, p) * M
  {
    DueWithoutOverhang(keys, votes, won, V, M);
    Cancel(SumOf(keys, Due(votes, won, V, M)), M, V);
    LowerQuotaExactlyWhen(keys, votes, won, topup, SumOver(keys, topup));
    assert GetsShare(votes, won, topup, V, M, p);
    ShareBounds(At(votes, p), V, M);
    MulMono(V, Share(At(votes, p), V, M) + 1, SeatsOf(won, topup, p) + 1);
  }

  // ---- Overhang ----

  const SMALL: Id := Uuid(0)
  const LARGE: Id := Uuid(1)

  /** A list with 1 vote in 100 that holds all 4 constituencies keeps the list with the other 99
      at 4 of the 8 seats, where its share is 7.92: the top-up cannot undo this overhang. */
  lemma {:induction false} OverhangBreaksLowerQuota(topup: map<Id, nat>)
    requires IsDHondt([SMALL, LARGE], map[SMALL := 1, LARGE := 99], map[SMALL := 4], topup)
    requires SumOver([SMALL, LARGE], topup) == 4
    ensures SeatsOf(map[SMALL := 4], topup, LARGE) == 4
    ensures HouseSize([SMALL, LARGE], map[SMALL := 4], topup) == 8
    ensures !NoOverhang([SMALL, LARGE], map[SMALL := 1, LARGE := 99], map[SMALL := 4], topup)
    ensures Share(99, 100, 8) == 7
    ensures !GetsShare(map[SMALL := 1, LARGE := 99], map[SMALL := 4], topup, 100, 8, LARGE)
  {
    var keys, votes: map<Id, nat>, won: map<Id, nat> := [SMALL, LARGE], map[SMALL := 1, LARGE := 99], map[SMALL := 4];
    SumOfTwo(topup);
    SumOfTwo(votes);
    SumOfTwo(won);
    if At(topup, SMALL) > 0 {
      assert Earned(votes, won, topup, SMALL, LARGE);
    }
    assert SMALL in keys;
  }

  /** A list with 1 vote in 10 that holds the only constituency has more than its share of 2 seats, and
      yet the other one gets its own with the top-up. */
  lemma {:induction false} OverhangMayDoNoHarm(topup: map<Id, nat>)
    requires IsDHondt([SMALL, LARGE], map[SMALL := 1, LARGE := 9], map[SMALL := 1], topup)
    requires SumOver([SMALL, LARGE], topup) == 1
    ensures !NoOverhang([SMALL, LARGE], map[SMALL := 1, LARGE := 9], map[SMALL := 1], topup)
    ensures GetsShare(map[SMALL := 1, LARGE := 9], map[SMALL := 1], topup, 10, 2, SMALL)
    ensures GetsShare(map[SMALL := 1, LARGE := 9], map[SMALL := 1], topup, 10, 2, LARGE)
  {
    var keys, votes: map<Id, nat>, won: map<Id, nat> := [SMALL, LARGE], map[SMALL := 1, LARGE := 9], map[SMALL := 1];
    SumOfTwo(topup);
    SumOfTwo(votes);
    SumOfTwo(won);
    assert SMALL in keys && LARGE in keys;
    assert At(topup, SMALL) > 0 ==> Earned(votes, won, topup, SMALL, LARGE);
  }

  lemma {:induction false} SumOfTwo(m: map<Id, nat>)
    ensures SumOver([SMALL, LARGE], m) == At(m, SMALL) + At(m, LARGE)
  {
    assert [SMALL, LARGE][..1] == [SMALL] && [SMALL][..0] == [];
    assert SumOver([SMALL], m) == At(m, SMALL);
  }
}
