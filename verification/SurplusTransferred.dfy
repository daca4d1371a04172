/** The Single Transferable Vote count with the surplus transfer its comments describe: a candidate
    joins `elected` after, not before, the loop that scales its ballots. This is not what
    `_stv_count` does; it shows what moving one line would buy, and `SurplusCost` what it
    would cost. */
module SurplusTransferred {
  import opened Arithmetic
  import opened Ballots
  import opened WeightedBallots
  import opened SingleTransferableVote
  import opened SingleTransferableVoteTheorems
  import opened SurplusNotTransferred

  datatype Holding = Holding(ws: seq<Weighted>, elected: seq<Id>, eliminated: set<Id>)

  function OutOf(h: Holding): set<Id> {
    Elements(h.elected) + h.eliminated
  }

  ghost predicate Fractions(ws: seq<Weighted>) {
    forall i :: 0 <= i < |ws| ==> 0.0 <= ws[i].weight <= 1.0
  }

  /** Each seat won by `S` has used up a whole quota of the ballots that list `S`. */
  ghost predicate Paid(bs: seq<Ballot>, q: nat, h: Holding, S: set<Id>) {
    (|Elements(h.elected) * S| * q) as real + Weight(h.ws, Lists(S)) <= Count(bs, Lists(S)) as real
  }

  /** While a quota coalition has no seat it has a candidate left and all of its weight. */
  ghost predicate Intact(bs: seq<Ballot>, q: nat, h: Holding, S: set<Id>) {
    Coalition(bs, q, S) && Elements(h.elected) !! S ==>
      && !(S <= h.eliminated)
      && forall i :: 0 <= i < |h.ws| && Solid(h.ws[i].prefs, S) ==> h.ws[i].weight == 1.0
  }

  ghost predicate Shaped(bs: seq<Ballot>, h: Holding) {
    && Prefs(h.ws) == bs
    && Fractions(h.ws)
    && Distinct(h.elected)
    && Elements(h.elected) !! h.eliminated
    && OutOf(h) <= Candidates(bs)
  }

  ghost predicate Inv(bs: seq<Ballot>, q: nat, h: Holding) {
    && Shaped(bs, h)
    && (forall S :: Paid(bs, q, h, S))
    && (forall S :: Intact(bs, q, h, S))
  }

  // ---- What a transfer does to weights ----

  lemma {:induction false} WeightMono(ws: seq<Weighted>, p: Ballot -> bool, r: Ballot -> bool)
    requires Fractions(ws)
    requires forall b :: b in Prefs(ws) && p(b) ==> r(b)
    ensures 0.0 <= Weight(ws, p) <= Weight(ws, r)
  {
    if |ws| > 0 {
      var n := |ws| - 1;
      assert Prefs(ws) == Prefs(ws[..n]) + [ws[n].prefs];
      WeightMono(ws[..n], p, r);
    }
  }

  /** A scaling that keeps every weight between nothing and what it was. */
  ghost predicate Shrinks(scale: real -> real) {
    forall x :: 0.0 <= x <= 1.0 ==> 0.0 <= scale(x) <= x
  }

  lemma {:induction false} TransferLast(ws: seq<Weighted>, out: set<Id>, c: Id, scale: real -> real, p: Ballot -> bool)
    requires |ws| > 0
    ensures Weight(Transfer(ws, out, c, scale), p)
            == Weight(Transfer(ws[..|ws| - 1], out, c, scale), p)
               + if p(ws[|ws| - 1].prefs) then Scaled(ws[|ws| - 1], out, c, scale).weight else 0.0
  {
    var n := |ws| - 1;
    assert Transfer(ws, out, c, scale)[..n] == Transfer(ws[..n], out, c, scale);
  }

  /** What the ballots that count for `c` weigh after scaling. */
  function ScaledWeight(ws: seq<Weighted>, out: set<Id>, c: Id, scale: real -> real): real {
    if |ws| == 0 then 0.0
    else ScaledWeight(ws[..|ws| - 1], out, c, scale)
         + if Top(ws[|ws| - 1].prefs, out) == Some(c) then scale(ws[|ws| - 1].weight) else 0.0
  }

  function Plus(x: real, y: real): real {
    x + y
  }

  ghost predicate Linear(f: real -> real) {
    f(0.0) == 0.0 && forall x, y {:trigger Plus(x, y)} :: f(Plus(x, y)) == f(x) + f(y)
  }

  lemma {:induction false} ScaledWeightIs(ws: seq<Weighted>, out: set<Id>, c: Id, scale: real -> real)
    requires Linear(scale)
    ensures ScaledWeight(ws, out, c, scale) == scale(Weight(ws, CountsFor(c, out)))
  {
    if |ws| > 0 {
      var n := |ws| - 1;
      ScaledWeightIs(ws[..n], out, c, scale);
      assert CountsFor(c, out)(ws[n].prefs) ==>
          Weight(ws, CountsFor(c, out)) == Plus(Weight(ws[..n], CountsFor(c, out)), ws[n].weight);
    }
  }

  lemma {:induction false} TimesIsLinear(ratio: real)
    ensures Linear(Times(ratio))
  {
    forall x, y ensures Times(ratio)(Plus(x, y)) == Times(ratio)(x) + Times(ratio)(y) {
      RealDistribute(x, y, ratio);
    }
  }

  /** Scaling the ballots of `c` changes the weight of any group that contains them all. */
  lemma {:induction false} TransferTakes(ws: seq<Weighted>, out: set<Id>, c: Id, scale: real -> real, p: Ballot -> bool)
    requires forall b :: CountsFor(c, out)(b) ==> p(b)
    ensures Weight(Transfer(ws, out, c, scale), p)
            == Weight(ws, p) - Weight(ws, CountsFor(c, out)) + ScaledWeight(ws, out, c, scale)
  {
    if |ws| > 0 {
      TransferTakes(ws[..|ws| - 1], out, c, scale, p);
      TransferLast(ws, out, c, scale, p);
    }
  }

  lemma {:induction false} TransferKeepsShape(ws: seq<Weighted>, out: set<Id>, c: Id, scale: real -> real)
    requires Fractions(ws) && Shrinks(scale)
    ensures Fractions(Transfer(ws, out, c, scale))
    ensures Prefs(Transfer(ws, out, c, scale)) == Prefs(ws)
  {
    var r := Transfer(ws, out, c, scale);
    forall i | 0 <= i < |r| ensures 0.0 <= r[i].weight <= 1.0 && r[i].prefs == ws[i].prefs {
      assert r[i] == Scaled(ws[i], out, c, scale);
    }
  }

  lemma {:induction false} TransferNeverAdds(ws: seq<Weighted>, out: set<Id>, c: Id, scale: real -> real,
                                             p: Ballot -> bool)
    requires Fractions(ws) && Shrinks(scale)
    ensures Weight(Transfer(ws, out, c, scale), p) <= Weight(ws, p)
  {
    if |ws| > 0 {
      TransferNeverAdds(ws[..|ws| - 1], out, c, scale, p);
      TransferLast(ws, out, c, scale, p);
    }
  }

  /** Another candidate's ballots stay with it, at the same weight, when `c` goes out. */
  lemma {:induction false} OthersKeepWeight(ws: seq<Weighted>, out: set<Id>, c: Id, scale: real -> real, d: Id)
    requires Fractions(ws) && Shrinks(scale) && c != d
    ensures Weight(Transfer(ws, out, c, scale), CountsFor(d, out + {c})) >= Weight(ws, CountsFor(d, out))
  {
    if |ws| > 0 {
      var last := ws[|ws| - 1];
      OthersKeepWeight(ws[..|ws| - 1], out, c, scale, d);
      TransferLast(ws, out, c, scale, CountsFor(d, out + {c}));
      if CountsFor(d, out)(last.prefs) {
        TopStable(last.prefs, out, out + {c});
      }
    }
  }

  lemma {:induction false} ShareOf(x: real, k: real)
    requires 0.0 <= x <= k && 0.0 < k
    ensures 0.0 <= x / k <= 1.0 && (x / k) * k == x
  {
  }

  lemma {:induction false} Fraction(x: real, ratio: real)
    requires 0.0 <= x && 0.0 <= ratio <= 1.0
    ensures 0.0 <= x * ratio <= x
  {
    RealMulMono(x, ratio, 1.0);
    RealMulMono(x, 0.0, ratio);
    assert x * 0.0 == 0.0 && x * 1.0 == x;
  }

  lemma {:induction false} RatioShrinks(ratio: real)
    requires 0.0 <= ratio <= 1.0
    ensures Shrinks(Times(ratio))
  {
    forall x | 0.0 <= x <= 1.0 ensures 0.0 <= Times(ratio)(x) <= x {
      Fraction(x, ratio);
      assert Times(ratio)(x) == x * ratio;
    }
  }

  /** `surplus / counts[c]` for a candidate elected on `k` counted votes. */
  function Ratio(q: nat, k: real): real
    requires k > 0.0
  {
    (k - q as real) / k
  }

  /** Scaling a candidate's `held` votes takes at least a quota when `k` of them were counted. */
  lemma {:induction false} QuotaUsedUp(q: nat, k: real, held: real)
    requires q > 0 && q as real <= k <= held
    ensures Shrinks(Times(Ratio(q, k)))
    ensures held - Times(Ratio(q, k))(held) >= q as real
  {
    var r := Ratio(q, k);
    ShareOf(k - q as real, k);
    RatioShrinks(r);
    assert (1.0 - r) * k == k - r * k;
    RealMulMono(1.0 - r, k, held);
    assert (1.0 - r) * held == held - held * r;
    assert Times(r)(held) == held * r;
  }

  // ---- Electing one candidate keeps the invariant ----

  function Elect(h: Holding, c: Id, scale: real -> real): Holding {
    Holding(Transfer(h.ws, OutOf(h), c, scale), h.elected + [c], h.eliminated)
  }

  /** The scaling takes at least a quota from the votes `c` holds. */
  ghost predicate TakesQuota(q: nat, h: Holding, c: Id, scale: real -> real) {
    Shrinks(scale) &&
    Weight(h.ws, CountsFor(c, OutOf(h))) - ScaledWeight(h.ws, OutOf(h), c, scale) >= q as real
  }

  lemma {:induction false} SeatsOf(elected: seq<Id>, c: Id, S: set<Id>)
    requires c !in elected
    ensures |Elements(elected + [c]) * S| == |Elements(elected) * S| + if c in S then 1 else 0
  {
    if c in S {
      assert Elements(elected + [c]) * S == Elements(elected) * S + {c};
    } else {
      assert Elements(elected + [c]) * S == Elements(elected) * S;
    }
  }

  lemma {:induction false} OneMore(n: nat, q: nat)
    ensures ((n + 1) * q) as real == (n * q) as real + q as real
  {
    assert (n + 1) * q == n * q + q;
  }

  lemma {:induction false} ElectingPays(bs: seq<Ballot>, q: nat, h: Holding, c: Id, scale: real -> real, S: set<Id>)
    requires Paid(bs, q, h, S) && Fractions(h.ws) && c !in h.elected && TakesQuota(q, h, c, scale)
    ensures Paid(bs, q, Elect(h, c, scale), S)
  {
    SeatsOf(h.elected, c, S);
    if c in S {
      TransferTakes(h.ws, OutOf(h), c, scale, Lists(S));
      OneMore(|Elements(h.elected) * S|, q);
    } else {
      TransferNeverAdds(h.ws, OutOf(h), c, scale, Lists(S));
    }
  }

  lemma {:induction false} ElectingLeavesIntact(bs: seq<Ballot>, q: nat, h: Holding, c: Id, scale: real -> real,
                                                S: set<Id>)
    requires Intact(bs, q, h, S) && Prefs(h.ws) == bs
    ensures Intact(bs, q, Elect(h, c, scale), S)
  {
    var t := Elect(h, c, scale);
    if Coalition(bs, q, S) && Elements(t.elected) !! S {
      assert c in Elements(t.elected);
      assert Elements(h.elected) <= Elements(t.elected);
      forall i | 0 <= i < |t.ws| && Solid(t.ws[i].prefs, S) ensures t.ws[i].weight == 1.0 {
        assert !(S <= OutOf(h));
        SolidTop(h.ws[i].prefs, S, OutOf(h));
      }
    }
  }

  lemma {:induction false} ElectingKeepsShape(bs: seq<Ballot>, h: Holding, c: Id, scale: real -> real)
    requires Shaped(bs, h) && c !in OutOf(h) && c in Candidates(bs) && Shrinks(scale)
    ensures Shaped(bs, Elect(h, c, scale))
    ensures OutOf(Elect(h, c, scale)) == OutOf(h) + {c}
  {
    TransferKeepsShape(h.ws, OutOf(h), c, scale);
    OutAfter(h.elected, h.eliminated, c);
  }

  lemma {:induction false} OutAfter(elected: seq<Id>, eliminated: set<Id>, c: Id)
    requires Distinct(elected) && Elements(elected) !! eliminated && c !in elected && c !in eliminated
    ensures Distinct(elected + [c]) && Elements(elected + [c]) !! eliminated
    ensures Elements(elected + [c]) + eliminated == Elements(elected) + eliminated + {c}
  {
    DistinctConcat(elected, [c]);
  }

  lemma {:induction false} ElectingKeepsInv(bs: seq<Ballot>, q: nat, h: Holding, c: Id, scale: real -> real)
    requires Inv(bs, q, h) && c !in OutOf(h) && c in Candidates(bs) && TakesQuota(q, h, c, scale)
    ensures Inv(bs, q, Elect(h, c, scale))
  {
    var t := Elect(h, c, scale);
    ElectingKeepsShape(bs, h, c, scale);
    forall S ensures Paid(bs, q, t, S) {
      assert Paid(bs, q, h, S);
      ElectingPays(bs, q, h, c, scale, S);
    }
    forall S ensures Intact(bs, q, t, S) {
      assert Intact(bs, q, h, S);
      ElectingLeavesIntact(bs, q, h, c, scale, S);
    }
  }

  // ---- Eliminating the lowest keeps the invariant ----

  lemma {:induction false} WeightAtLeastCount(ws: seq<Weighted>, p: Ballot -> bool)
    requires forall i :: 0 <= i < |ws| && p(ws[i].prefs) ==> ws[i].weight == 1.0
    ensures Weight(ws, p) == Count(Prefs(ws), p) as real
  {
    if |ws| > 0 {
      WeightAtLeastCount(ws[..|ws| - 1], p);
      assert Prefs(ws)[..|ws| - 1] == Prefs(ws[..|ws| - 1]);
    }
  }

  lemma {:induction false} EliminatingLeavesIntact(bs: seq<Ballot>, q: nat, h: Holding, l: Id, S: set<Id>)
    requires Inv(bs, q, h) && l !in OutOf(h)
    requires Weight(h.ws, CountsFor(l, OutOf(h))) < q as real
    ensures Intact(bs, q, Holding(h.ws, h.elected, h.eliminated + {l}), S)
  {
    assert Intact(bs, q, h, S);
    if Coalition(bs, q, S) && Elements(h.elected) !! S && S <= h.eliminated + {l} {
      WeightAtLeastCount(h.ws, IsSolid(S));
      forall b | b in bs && IsSolid(S)(b) ensures CountsFor(l, OutOf(h))(b) {
        SolidTop(b, S, OutOf(h));
      }
      WeightMono(h.ws, IsSolid(S), CountsFor(l, OutOf(h)));
    }
  }

  lemma {:induction false} EliminatingKeepsInv(bs: seq<Ballot>, q: nat, h: Holding, l: Id)
    requires Inv(bs, q, h) && l !in OutOf(h) && l in Candidates(bs)
    requires Weight(h.ws, CountsFor(l, OutOf(h))) < q as real
    ensures Inv(bs, q, Holding(h.ws, h.elected, h.eliminated + {l}))
  {
    var t := Holding(h.ws, h.elected, h.eliminated + {l});
    forall S ensures Paid(bs, q, t, S) {
      assert Paid(bs, q, h, S);
    }
    forall S ensures Intact(bs, q, t, S) {
      EliminatingLeavesIntact(bs, q, h, l, S);
    }
  }

  lemma {:induction false} StartsWithInv(bs: seq<Ballot>, q: nat, ws: seq<Weighted>)
    requires Prefs(ws) == bs && AllFull(ws)
    ensures Inv(bs, q, Holding(ws, [], {}))
  {
    var h := Holding(ws, [], {});
    forall S ensures Paid(bs, q, h, S) {
      FullWeightIsCount(ws, Lists(S));
      assert Elements(h.elected) * S == {};
    }
  }

  // ---- What the invariant says about the result ----

  /** The seats taken so far have been paid for with whole quotas of all the weight there was. */
  lemma {:induction false} SeatsPaidFor(bs: seq<Ballot>, q: nat, h: Holding)
    requires Inv(bs, q, h)
    ensures (|h.elected| * q) as real + Weight(h.ws, Lists(Candidates(bs))) <= |bs| as real
    ensures Weight(h.ws, Lists(Candidates(bs))) >= 0.0
  {
    var C := Candidates(bs);
    assert Paid(bs, q, h, C);
    assert Elements(h.elected) * C == Elements(h.elected);
    SizeOfDistinct(h.elected);
    CountAtMost(bs, Lists(C));
    WeightMono(h.ws, Lists(C), Lists(C));
  }

  /** Seats cost a quota each, so the quota alone limits them: the code's cut-off never bites. */
  lemma {:induction false} NeverMoreThanSeats(bs: seq<Ballot>, seats: nat, q: nat, h: Holding)
    requires Inv(bs, q, h) && (seats + 1) * q > |bs|
    ensures |h.elected| <= seats
  {
    SeatsPaidFor(bs, q, h);
    if |h.elected| > seats {
      MulMono(q, seats + 1, |h.elected|);
    }
  }

  lemma {:induction false} FinishedRepresentsCoalitions(bs: seq<Ballot>, seats: nat, q: nat, h: Holding, S: set<Id>)
    requires q > 0 && Inv(bs, q, h) && (seats + 1) * q > |bs| && Coalition(bs, q, S)
    requires |h.elected| >= seats || Active(bs, OutOf(h)) == 0
    ensures exists c :: c in S && c in h.elected
  {
    if forall c :: c in S ==> c !in h.elected {
      assert Intact(bs, q, h, S);
      CountPositive(bs, IsSolid(S));
      var b :| b in bs && IsSolid(S)(b);
      SolidTop(b, S, OutOf(h));
      CountPositive(bs, IsLive(OutOf(h)));
      assert IsLive(OutOf(h))(b);
      NoRoomForCoalition(bs, seats, q, h, S);
    }
  }

  /** The seats already taken have used up so much weight that a whole quota is not left. */
  lemma {:induction false} NoRoomForCoalition(bs: seq<Ballot>, seats: nat, q: nat, h: Holding, S: set<Id>)
    requires Inv(bs, q, h) && (seats + 1) * q > |bs| && Coalition(bs, q, S)
    requires Elements(h.elected) !! S
    ensures |h.elected| < seats
  {
    assert Intact(bs, q, h, S);
    SeatsPaidFor(bs, q, h);
    WeightAtLeastCount(h.ws, IsSolid(S));
    forall b | b in bs && IsSolid(S)(b) ensures Lists(Candidates(bs))(b) {
      SolidTop(b, S, {});
    }
    WeightMono(h.ws, IsSolid(S), Lists(Candidates(bs)));
    if |h.elected| >= seats {
      MulMono(q, seats, |h.elected|);
      OneMore(seats, q);
    }
  }

  // ---- The count ----

  /** A candidate the tally puts at the quota may be elected now, whoever was elected before it
      in the same round. */
  ghost predicate Ready(bs: seq<Ballot>, q: nat, h: Holding, counts: map<Id, real>, c: Id)
    requires c in counts
  {
    && c !in OutOf(h) && c in Candidates(bs)
    && q as real <= counts[c] <= Weight(h.ws, CountsFor(c, OutOf(h)))
  }

  lemma {:induction false} RatioTakesQuota(q: nat, h: Holding, c: Id, k: real)
    requires q > 0 && q as real <= k <= Weight(h.ws, CountsFor(c, OutOf(h)))
    ensures k > 0.0 && TakesQuota(q, h, c, Times(Ratio(q, k)))
  {
    QuotaUsedUp(q, k, Weight(h.ws, CountsFor(c, OutOf(h))));
    ScaledByRatio(h.ws, OutOf(h), c, Ratio(q, k));
  }

  lemma {:induction false} ScaledByRatio(ws: seq<Weighted>, out: set<Id>, c: Id, ratio: real)
    ensures ScaledWeight(ws, out, c, Times(ratio)) == Times(ratio)(Weight(ws, CountsFor(c, out)))
  {
    TimesIsLinear(ratio);
    ScaledWeightIs(ws, out, c, Times(ratio));
  }

  lemma {:induction false} ReadyToElect(bs: seq<Ballot>, q: nat, h: Holding, counts: map<Id, real>, c: Id)
    requires q > 0 && Inv(bs, q, h) && c in counts && Ready(bs, q, h, counts, c)
    ensures counts[c] > 0.0 && Shrinks(Times(Ratio(q, counts[c])))
    ensures Inv(bs, q, Elect(h, c, Times(Ratio(q, counts[c]))))
  {
    RatioTakesQuota(q, h, c, counts[c]);
    ElectingKeepsInv(bs, q, h, c, Times(Ratio(q, counts[c])));
  }

  lemma {:induction false} StaysReady(bs: seq<Ballot>, q: nat, h: Holding, counts: map<Id, real>, c: Id, d: Id,
                                      scale: real -> real)
    requires Fractions(h.ws) && Shrinks(scale) && c != d
    requires d in counts && Ready(bs, q, h, counts, d)
    ensures Ready(bs, q, Elect(h, c, scale), counts, d)
  {
    OthersKeepWeight(h.ws, OutOf(h), c, scale, d);
    assert OutOf(Elect(h, c, scale)) == OutOf(h) + {c};
  }

  method ElectBatchAfterTransfer(ghost bs: seq<Ballot>, ws: seq<Weighted>, elected: seq<Id>, eliminated: set<Id>,
                                 newly: seq<Id>, counts: map<Id, real>, q: nat, seats: nat)
    returns (ws': seq<Weighted>, elected': seq<Id>)
    requires q > 0 && Inv(bs, q, Holding(ws, elected, eliminated)) && |newly| > 0 && Distinct(newly)
    requires forall c :: c in newly ==> c in counts && Ready(bs, q, Holding(ws, elected, eliminated), counts, c)
    ensures Inv(bs, q, Holding(ws', elected', eliminated))
    ensures Elements(elected) < Elements(elected')
  {
    ws', elected' := ws, elected;
    for i := 0 to |newly|
      invariant Inv(bs, q, Holding(ws', elected', eliminated))
      invariant forall j :: i <= j < |newly| ==> Ready(bs, q, Holding(ws', elected', eliminated), counts, newly[j])
      invariant Elements(elected) <= Elements(elected')
      invariant i > 0 ==> newly[0] in elected'
    {
      var c := newly[i];
      ghost var h := Holding(ws', elected', eliminated);
      var ratio := if counts[c] > 0.0 then Ratio(q, counts[c]) else 0.0;
      ReadyToElect(bs, q, h, counts, c);
      forall j | i < j < |newly| ensures Ready(bs, q, Elect(h, c, Times(ratio)), counts, newly[j]) {
        StaysReady(bs, q, h, counts, c, newly[j], Times(ratio));
      }
      ws' := TransferSurplus(ws', Elements(elected') + eliminated, c, ratio);
      elected' := elected' + [c];
      assert c in elected';
      if |elected'| >= seats {
        break;
      }
    }
    assert newly[0] in newly && newly[0] !in elected;
  }

  /** One pass of the counting loop. */
  method TransferRound(ghost bs: seq<Ballot>, ws: seq<Weighted>, elected: seq<Id>, eliminated: set<Id>, q: nat,
                       seats: nat)
    returns (counted: bool, ws': seq<Weighted>, elected': seq<Id>, eliminated': set<Id>)
    requires q > 0 && Inv(bs, q, Holding(ws, elected, eliminated))
    ensures Inv(bs, q, Holding(ws', elected', eliminated'))
    ensures !counted ==>
      elected' == elected && eliminated' == eliminated && Active(bs, Elements(elected) + eliminated) == 0
    ensures counted ==> Elements(elected) + eliminated < Elements(elected') + eliminated'
  {
    ghost var h := Holding(ws, elected, eliminated);
    counted, ws', elected', eliminated' := true, ws, elected, eliminated;
    var keys, counts := Tally(ws, Elements(elected) + eliminated);
    NobodyCounted(bs, OutOf(h));
    if |keys| == 0 {
      counted := false;
      return;
    }
    forall c | c in keys ensures c in Candidates(bs) && c !in OutOf(h) {
      VotesComeFromBallots(bs, OutOf(h), c);
    }
    var newly := AtQuota(keys, counts, q);
    if |newly| > 0 {
      ws', elected' := ElectBatchAfterTransfer(bs, ws, elected, eliminated, newly, counts, q, seats);
    } else {
      var lowest := FewestVotes(keys, counts);
      EliminatingKeepsInv(bs, q, h, lowest);
      eliminated' := eliminated + {lowest};
    }
  }

  /** With the transfer in force: at most `seats` are elected, every quota coalition is
      represented, and no group takes more seats than the ballots listing it hold quotas. */
  method CountWithTransfer(ballots: seq<Ballot>, seats: nat) returns (elected: seq<Id>)
    ensures Distinct(elected) && |elected| <= seats
    ensures forall S :: Coalition(ballots, Quota(|ballots|, seats), S) ==> exists c :: c in S && c in elected
    ensures forall S :: WithinShare(ballots, Quota(|ballots|, seats), elected, S)
  {
    var q := Quota(|ballots|, seats);
    QuotaIsLeast(|ballots|, seats, q);
    var ws := Unit(ballots);
    var eliminated: set<Id> := {};
    elected := [];
    StartsWithInv(ballots, q, ws);
    while |elected| < seats
      invariant Inv(ballots, q, Holding(ws, elected, eliminated))
      decreases Candidates(ballots) - (Elements(elected) + eliminated)
    {
      var counted;
      counted, ws, elected, eliminated := TransferRound(ballots, ws, elected, eliminated, q, seats);
      if !counted {
        break;
      }
    }
    ghost var h := Holding(ws, elected, eliminated);
    NeverMoreThanSeats(ballots, seats, q, h);
    forall S | Coalition(ballots, q, S) ensures exists c :: c in S && c in elected {
      FinishedRepresentsCoalitions(ballots, seats, q, h, S);
    }
    forall S ensures WithinShare(ballots, q, elected, S) {
      assert Paid(ballots, q, h, S);
      WeightMono(ws, Lists(S), Lists(S));
    }
  }
}
