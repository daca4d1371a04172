/** The Single Transferable Vote count, `_stv_count` of backend/app/service/result_service.py,
    as the code performs it. */
module SingleTransferableVote {
  import opened Arithmetic
  import opened Ballots
  import opened WeightedBallots

  /** `(total_valid // (seats + 1)) + 1`. */
  function Quota(n: nat, seats: nat): (q: nat)
    ensures q > 0
  {
    n / (seats + 1) + 1
  }

  lemma {:induction false} DivisionBounds(n: nat, k: nat)
    requires k > 0
    ensures k * (n / k) <= n < k * (n / k + 1)
  {
  }

  /** The Droop quota is the least number that `seats + 1` candidates cannot all reach. */
  lemma {:induction false} QuotaIsLeast(n: nat, seats: nat, q: nat)
    ensures Quota(n, seats) <= q <==> (seats + 1) * q > n
  {
    var k := seats + 1;
    var d := n / k;
    DivisionBounds(n, k);
    if q >= d + 1 {
      MulMono(k, d + 1, q);
    } else {
      MulMono(k, q, d);
    }
  }

  // ---- What one round of a run may do, whichever of several tied candidates it picks ----

  datatype Progress = Progress(elected: seq<Id>, eliminated: set<Id>)

  function Out(s: Progress): set<Id> {
    Elements(s.elected) + s.eliminated
  }

  ghost predicate MeetsQuota(bs: seq<Ballot>, q: nat, out: set<Id>, c: Id) {
    Votes(bs, out, c) >= q
  }

  /** Candidates who reach the quota, in some order: all of them unless the seats run out. */
  ghost predicate IsBatch(bs: seq<Ballot>, seats: nat, q: nat, s: Progress, batch: seq<Id>) {
    && |batch| > 0
    && Distinct(batch)
    && (forall c :: c in batch ==> MeetsQuota(bs, q, Out(s), c))
    && |s.elected| + |batch| <= seats
    && (|s.elected| + |batch| < seats ==> forall c :: MeetsQuota(bs, q, Out(s), c) ==> c in batch)
  }

  ghost predicate ElectsBatch(bs: seq<Ballot>, seats: nat, q: nat, s: Progress, t: Progress) {
    exists batch :: IsBatch(bs, seats, q, s, batch) && t == Progress(s.elected + batch, s.eliminated)
  }

  ghost predicate EliminatesOne(bs: seq<Ballot>, q: nat, s: Progress, t: Progress) {
    && (forall c :: !MeetsQuota(bs, q, Out(s), c))
    && exists l :: Lowest(bs, Out(s), l) && t == Progress(s.elected, s.eliminated + {l})
  }

  ghost predicate Round(bs: seq<Ballot>, seats: nat, q: nat, s: Progress, t: Progress) {
    && |s.elected| < seats
    && (ElectsBatch(bs, seats, q, s, t) || EliminatesOne(bs, q, s, t))
  }

  ghost predicate Run(bs: seq<Ballot>, seats: nat, q: nat, trace: seq<Progress>) {
    && |trace| > 0
    && if |trace| == 1 then trace[0] == Progress([], {})
       else Run(bs, seats, q, trace[..|trace| - 1]) && Round(bs, seats, q, trace[|trace| - 2], trace[|trace| - 1])
  }

  ghost predicate Finished(bs: seq<Ballot>, seats: nat, s: Progress) {
    |s.elected| == seats || Active(bs, Out(s)) == 0
  }

  /** A whole count that ends with `elected`. */
  ghost predicate Elects(bs: seq<Ballot>, seats: nat, trace: seq<Progress>, elected: seq<Id>) {
    && Run(bs, seats, Quota(|bs|, seats), trace)
    && Finished(bs, seats, trace[|trace| - 1])
    && elected == trace[|trace| - 1].elected
  }

  // ---- What every state reached satisfies ----

  ghost predicate WellFormed(bs: seq<Ballot>, seats: nat, s: Progress) {
    && Distinct(s.elected)
    && |s.elected| <= seats
    && Elements(s.elected) !! s.eliminated
    && Out(s) <= Candidates(bs)
  }

  lemma {:induction false} DistinctConcat(s: seq<Id>, t: seq<Id>)
    requires Distinct(s) && Distinct(t) && forall c :: c in t ==> c !in s
    ensures Distinct(s + t) && Elements(s + t) == Elements(s) + Elements(t)
  {
    forall i, j | 0 <= i < j < |s + t| ensures (s + t)[i] != (s + t)[j] {
      if i < |s| <= j {
        assert (s + t)[i] in s && (s + t)[j] in t;
      }
    }
  }

  lemma {:induction false} BatchKeepsWellFormed(bs: seq<Ballot>, seats: nat, q: nat, s: Progress, batch: seq<Id>)
    requires q > 0 && WellFormed(bs, seats, s) && IsBatch(bs, seats, q, s, batch)
    ensures WellFormed(bs, seats, Progress(s.elected + batch, s.eliminated))
    ensures Out(s) < Out(Progress(s.elected + batch, s.eliminated))
    ensures forall c :: c in batch ==> c !in Out(s)
  {
    forall c | c in batch ensures c in Candidates(bs) && c !in Out(s) {
      VotesComeFromBallots(bs, Out(s), c);
    }
    DistinctConcat(s.elected, batch);
    assert batch[0] in batch;
    assert Out(Progress(s.elected + batch, s.eliminated)) == Out(s) + Elements(batch);
  }

  lemma {:induction false} EliminationKeepsWellFormed(bs: seq<Ballot>, seats: nat, s: Progress, l: Id)
    requires WellFormed(bs, seats, s) && Lowest(bs, Out(s), l)
    ensures WellFormed(bs, seats, Progress(s.elected, s.eliminated + {l}))
    ensures Out(s) < Out(Progress(s.elected, s.eliminated + {l}))
    ensures l !in Out(s)
  {
    VotesComeFromBallots(bs, Out(s), l);
    assert Out(Progress(s.elected, s.eliminated + {l})) == Out(s) + {l};
  }

  lemma {:induction false} RoundKeepsWellFormed(bs: seq<Ballot>, seats: nat, q: nat, s: Progress, t: Progress)
    requires q > 0 && WellFormed(bs, seats, s) && Round(bs, seats, q, s, t)
    ensures WellFormed(bs, seats, t)
  {
    if ElectsBatch(bs, seats, q, s, t) {
      var batch :| IsBatch(bs, seats, q, s, batch) && t == Progress(s.elected + batch, s.eliminated);
      BatchKeepsWellFormed(bs, seats, q, s, batch);
    } else {
      var l :| Lowest(bs, Out(s), l) && t == Progress(s.elected, s.eliminated + {l});
      EliminationKeepsWellFormed(bs, seats, s, l);
    }
  }

  lemma {:induction false} RunsAreWellFormed(bs: seq<Ballot>, seats: nat, q: nat, trace: seq<Progress>)
    requires q > 0 && Run(bs, seats, q, trace)
    ensures WellFormed(bs, seats, trace[|trace| - 1])
  {
    if |trace| > 1 {
      RunsAreWellFormed(bs, seats, q, trace[..|trace| - 1]);
      RoundKeepsWellFormed(bs, seats, q, trace[|trace| - 2], trace[|trace| - 1]);
    }
  }

  // ---- The count itself ----

  /** `[c for c, v in counts.items() if v >= quota]`. */
  method AtQuota(keys: seq<Id>, counts: map<Id, real>, quota: nat) returns (r: seq<Id>)
    requires Distinct(keys) && forall c :: c in keys ==> c in counts
    ensures Distinct(r) && forall c :: c in r <==> c in keys && counts[c] >= quota as real
  {
    r := [];
    for i := 0 to |keys|
      invariant Distinct(r) && forall c :: c in r <==> c in keys[..i] && counts[c] >= quota as real
    {
      if counts[keys[i]] >= quota as real {
        r := r + [keys[i]];
      }
    }
  }

  /** `min(counts, key=counts.get)`. */
  method FewestVotes(keys: seq<Id>, counts: map<Id, real>) returns (lowest: Id)
    requires |keys| > 0 && forall c :: c in keys ==> c in counts
    ensures lowest in keys && forall c :: c in keys ==> counts[lowest] <= counts[c]
  {
    lowest := keys[0];
    for i := 1 to |keys|
      invariant lowest in keys
      invariant forall k :: 0 <= k < i ==> counts[lowest] <= counts[keys[k]]
    {
      if counts[keys[i]] < counts[lowest] {
        lowest := keys[i];
      }
    }
  }

  /** While no weight has changed, the weighted tally is a plain count of ballots. */
  lemma {:induction false} TallyOfFullBallots(bs: seq<Ballot>, ws: seq<Weighted>, out: set<Id>, keys: seq<Id>,
                                              counts: map<Id, real>)
    requires Prefs(ws) == bs && AllFull(ws) && IsTally(ws, out, keys, counts)
    ensures forall c :: c in keys <==> Votes(bs, out, c) > 0
    ensures forall c :: c in keys ==> counts[c] == Votes(bs, out, c) as real
    ensures |keys| == 0 <==> Active(bs, out) == 0
  {
    forall c | c in keys ensures counts[c] == Votes(bs, out, c) as real {
      FullWeightIsCount(ws, CountsFor(c, out));
    }
    NobodyCounted(bs, out);
    if |keys| > 0 {
      assert Votes(bs, out, keys[0]) > 0;
    }
  }

  method Unit(ballots: seq<Ballot>) returns (ws: seq<Weighted>)
    ensures Prefs(ws) == ballots && AllFull(ws)
  {
    ws := [];
    for i := 0 to |ballots|
      invariant Prefs(ws) == ballots[..i] && AllFull(ws)
    {
      ghost var before := ws;
      ws := ws + [Weighted(ballots[i], 1.0)];
      assert ws[..|before|] == before;
    }
  }

  /** The loop over `newly_elected`. A candidate joins `elected` before its ballots are looked
      for, so the transfer changes no weight. */
  method ElectBatch(ws: seq<Weighted>, elected: seq<Id>, eliminated: set<Id>, newly: seq<Id>,
                    counts: map<Id, real>, quota: nat, seats: nat)
    returns (ws': seq<Weighted>, elected': seq<Id>, ghost batch: seq<Id>)
    requires |elected| < seats && |newly| > 0
    requires forall c :: c in newly ==> c in counts
    ensures ws' == ws
    ensures elected' == elected + batch
    ensures 0 < |batch| <= |newly| && batch == newly[..|batch|]
    ensures |elected'| <= seats && (|elected'| < seats ==> batch == newly)
  {
    ws', elected', batch := ws, elected, [];
    for i := 0 to |newly|
      invariant ws' == ws && elected' == elected + batch && batch == newly[..i] && |elected'| < seats
    {
      var c := newly[i];
      elected' := elected' + [c];
      batch := batch + [c];
      var surplus := counts[c] - quota as real;
      var ratio := if counts[c] > 0.0 then surplus / counts[c] else 0.0;
      ws' := TransferSurplus(ws', Elements(elected') + eliminated, c, ratio);
      TransferOfElected(ws, Elements(elected') + eliminated, c, Times(ratio));
      if |elected'| >= seats {
        return;
      }
    }
  }

  /** One pass of the counting loop; `counted` is false when no ballot counts any more. */
  method CountRound(ballots: seq<Ballot>, ws: seq<Weighted>, elected: seq<Id>, eliminated: set<Id>, quota: nat,
                    seats: nat)
    returns (counted: bool, ws': seq<Weighted>, elected': seq<Id>, eliminated': set<Id>)
    requires Prefs(ws) == ballots && AllFull(ws) && quota > 0 && |elected| < seats
    requires WellFormed(ballots, seats, Progress(elected, eliminated))
    ensures ws' == ws
    ensures !counted ==> elected' == elected && eliminated' == eliminated
                         && Active(ballots, Out(Progress(elected, eliminated))) == 0
    ensures counted ==> Round(ballots, seats, quota, Progress(elected, eliminated), Progress(elected', eliminated'))
    ensures WellFormed(ballots, seats, Progress(elected', eliminated'))
    ensures counted ==> Out(Progress(elected, eliminated)) < Out(Progress(elected', eliminated'))
  {
    ghost var s := Progress(elected, eliminated);
    counted, ws', elected', eliminated' := true, ws, elected, eliminated;
    var keys, counts := Tally(ws, Elements(elected) + eliminated);
    TallyOfFullBallots(ballots, ws, Out(s), keys, counts);
    if |keys| == 0 {
      counted := false;
      return;
    }
    var newly := AtQuota(keys, counts, quota);
    assert forall c :: c in newly <==> MeetsQuota(ballots, quota, Out(s), c);
    if |newly| > 0 {
      ghost var batch;
      ws', elected', batch := ElectBatch(ws, elected, eliminated, newly, counts, quota, seats);
      assert IsBatch(ballots, seats, quota, s, batch);
      BatchKeepsWellFormed(ballots, seats, quota, s, batch);
    } else {
      var lowest := FewestVotes(keys, counts);
      eliminated' := eliminated + {lowest};
      assert Lowest(ballots, Out(s), lowest);
      EliminationKeepsWellFormed(ballots, seats, s, lowest);
    }
  }

  lemma {:induction false} RunGoesOn(bs: seq<Ballot>, seats: nat, q: nat, trace: seq<Progress>, t: Progress)
    requires Run(bs, seats, q, trace) && Round(bs, seats, q, trace[|trace| - 1], t)
    ensures Run(bs, seats, q, trace + [t])
  {
    var more := trace + [t];
    assert more[..|more| - 1] == trace && more[|more| - 2] == trace[|trace| - 1];
  }

  method StvCount(ballots: seq<Ballot>, seats: nat) returns (elected: seq<Id>, ghost trace: seq<Progress>)
    ensures Elects(ballots, seats, trace, elected)
    ensures Distinct(elected) && |elected| <= seats && Elements(elected) <= Candidates(ballots)
  {
    trace := [Progress([], {})];
    elected := [];
    if |ballots| == 0 {
      return;
    }
    var quota := Quota(|ballots|, seats);
    var ws := Unit(ballots);
    var eliminated: set<Id> := {};
    while |elected| < seats
      invariant Prefs(ws) == ballots && AllFull(ws)
      invariant Run(ballots, seats, quota, trace) && trace[|trace| - 1] == Progress(elected, eliminated)
      invariant WellFormed(ballots, seats, Progress(elected, eliminated))
      decreases Candidates(ballots) - Out(Progress(elected, eliminated))
    {
      var counted;
      counted, ws, elected, eliminated := CountRound(ballots, ws, elected, eliminated, quota, seats);
      if !counted {
        break;
      }
      RunGoesOn(ballots, seats, quota, trace, Progress(elected, eliminated));
      trace := trace + [Progress(elected, eliminated)];
    }
  }
}
