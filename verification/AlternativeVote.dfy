/** The Alternative Vote count, `_av_count` of backend/app/service/result_service.py. */
module AlternativeVote {
  import opened Ballots
  import opened Dictionaries

  /** The dictionary `counts`, with its keys in insertion order, is the tally of `bs`. */
  ghost predicate IsTally(bs: seq<Ballot>, out: set<Id>, keys: seq<Id>, counts: map<Id, nat>) {
    && Distinct(keys)
    && (forall c :: c in counts <==> c in keys)
    && (forall c :: c in keys <==> Votes(bs, out, c) > 0)
    && (forall c :: At(counts, c) == Votes(bs, out, c))
    && SumOver(keys, counts) == Active(bs, out)
  }

  lemma {:induction false} TallyNext(bs: seq<Ballot>, i: nat, out: set<Id>)
    requires i < |bs|
    ensures forall c :: Votes(bs[..i + 1], out, c)
                        == Votes(bs[..i], out, c) + if Top(bs[i], out) == Some(c) then 1 else 0
    ensures Active(bs[..i + 1], out) == Active(bs[..i], out) + if Top(bs[i], out).Some? then 1 else 0
  {
    forall c ensures Votes(bs[..i + 1], out, c)
                     == Votes(bs[..i], out, c) + if Top(bs[i], out) == Some(c) then 1 else 0
    {
      CountPrefix(bs, i, CountsFor(c, out));
    }
    CountPrefix(bs, i, IsLive(out));
  }

  /** One counting round: every ballot adds one to its first candidate that is not out. */
  method Tally(bs: seq<Ballot>, out: set<Id>) returns (keys: seq<Id>, counts: map<Id, nat>)
    ensures IsTally(bs, out, keys, counts)
  {
    keys, counts := [], map[];
    for i := 0 to |bs|
      invariant IsTally(bs[..i], out, keys, counts)
    {
      var prefs := bs[i];
      var j := 0;
      while j < |prefs| && prefs[j] in out
        invariant j <= |prefs|
        invariant Top(prefs, out) == Top(prefs[j..], out)
      {
        j := j + 1;
      }
      TallyNext(bs, i, out);
      if j < |prefs| {
        keys, counts := AddOne(keys, counts, prefs[j]);
      }
    }
    assert bs[..|bs|] == bs;
  }

  // ---- What a run of the count may do, whichever of several tied candidates it picks ----

  ghost predicate Majority(bs: seq<Ballot>, out: set<Id>, c: Id) {
    2 * Votes(bs, out, c) > Active(bs, out)
  }

  /** A round that eliminates `l` and goes on: at least two others still have votes. */
  ghost predicate Eliminates(bs: seq<Ballot>, out: set<Id>, l: Id) {
    && (forall c :: !Majority(bs, out, c))
    && Lowest(bs, out, l)
    && exists c, d :: c != d && c != l && d != l && Votes(bs, out, c) > 0 && Votes(bs, out, d) > 0
  }

  /** The candidates of `elim` were eliminated in that order. */
  ghost predicate Rounds(bs: seq<Ballot>, elim: seq<Id>) {
    |elim| == 0 ||
    var front := elim[..|elim| - 1];
    Rounds(bs, front) && Eliminates(bs, Elements(front), elim[|elim| - 1])
  }

  /** The last round leaves exactly `w` and the candidate just eliminated. */
  ghost predicate LastOneLeft(bs: seq<Ballot>, out: set<Id>, w: Id, l: Id) {
    && w != l
    && (forall c :: !Majority(bs, out, c))
    && Votes(bs, out, w) > 0
    && Lowest(bs, out, l)
    && forall c :: Votes(bs, out, c) > 0 ==> c == w || c == l
  }

  ghost predicate Wins(bs: seq<Ballot>, out: set<Id>, w: Id) {
    Majority(bs, out, w) || exists l :: LastOneLeft(bs, out, w, l)
  }

  ghost predicate Elects(bs: seq<Ballot>, elim: seq<Id>, w: Id) {
    Rounds(bs, elim) && Wins(bs, Elements(elim), w)
  }

  // ---- The count itself ----

  function Marked(bs: seq<Ballot>): seq<Ballot> {
    if |bs| == 0 then []
    else Marked(bs[..|bs| - 1]) + if |bs[|bs| - 1]| > 0 then [bs[|bs| - 1]] else []
  }

  lemma {:induction false} CountMarked(bs: seq<Ballot>, p: Ballot -> bool)
    requires !p([])
    ensures Count(Marked(bs), p) == Count(bs, p)
  {
    if |bs| > 0 {
      var front, last := bs[..|bs| - 1], bs[|bs| - 1];
      CountMarked(front, p);
      if |last| > 0 {
        assert Marked(bs)[..|Marked(bs)| - 1] == Marked(front);
      } else {
        assert Marked(bs) == Marked(front);
      }
    }
  }

  lemma {:induction false} TallyMarked(bs: seq<Ballot>, out: set<Id>, keys: seq<Id>, counts: map<Id, nat>)
    requires IsTally(Marked(bs), out, keys, counts)
    ensures IsTally(bs, out, keys, counts)
  {
    forall c ensures Votes(Marked(bs), out, c) == Votes(bs, out, c) {
      CountMarked(bs, CountsFor(c, out));
    }
    CountMarked(bs, IsLive(out));
  }

  /** The first candidate in dictionary order with more than half of the votes counted. */
  method OverHalf(keys: seq<Id>, counts: map<Id, nat>) returns (r: Option<Id>)
    requires forall c :: c in keys ==> c in counts
    ensures r.Some? ==> r.value in keys && 2 * counts[r.value] > SumOver(keys, counts)
    ensures r.None? ==> forall c :: c in keys ==> 2 * counts[c] <= SumOver(keys, counts)
  {
    var total := SumOver(keys, counts);
    for i := 0 to |keys|
      invariant forall k :: 0 <= k < i ==> 2 * counts[keys[k]] <= total
    {
      if 2 * counts[keys[i]] > total {
        return Some(keys[i]);
      }
    }
    return None;
  }

  /** `min(counts, key=counts.get)`: the first key in dictionary order with the least value. */
  method FewestVotes(keys: seq<Id>, counts: map<Id, nat>) returns (lowest: Id)
    requires |keys| > 0 && forall c :: c in keys ==> c in counts
    ensures lowest in keys && forall c :: c in keys ==> counts[lowest] <= counts[c]
  {
    lowest := keys[0];
    for i := 1 to |keys|
      invariant lowest in keys
      invariant forall k :: 0 <= k < i ==> counts[lowest] <= counts[keys[k]]
    {
      if counts[keys[i]] < counts[lowest] {
        lowest := keys[i];
      }
    }
  }

  /** `[c for c in counts if c not in eliminated]`. */
  method StillIn(keys: seq<Id>, eliminated: set<Id>) returns (remaining: seq<Id>)
    requires Distinct(keys)
    ensures Distinct(remaining)
    ensures forall c :: c in remaining <==> c in keys && c !in eliminated
  {
    remaining := [];
    for i := 0 to |keys|
      invariant Distinct(remaining)
      invariant forall c :: c in remaining <==> c in keys[..i] && c !in eliminated
    {
      if keys[i] !in eliminated {
        remaining := remaining + [keys[i]];
      }
    }
  }

  lemma {:induction false} LowestIsLowest(bs: seq<Ballot>, out: set<Id>, keys: seq<Id>, counts: map<Id, nat>, l: Id)
    requires IsTally(bs, out, keys, counts)
    requires l in keys && forall c :: c in keys ==> counts[l] <= counts[c]
    requires forall c :: c in keys ==> 2 * counts[c] <= SumOver(keys, counts)
    ensures Lowest(bs, out, l)
    ensures forall c :: !Majority(bs, out, c)
  {
    forall c ensures !Majority(bs, out, c) {
      if c in keys {
        assert counts[c] == Votes(bs, out, c);
      } else {
        assert Votes(bs, out, c) == 0;
      }
    }
  }

  /** After a round without a majority somebody besides the eliminated candidate is left. */
  lemma {:induction false} RemainingKeys(bs: seq<Ballot>, out: set<Id>, keys: seq<Id>, counts: map<Id, nat>, l: Id,
                                         remaining: seq<Id>)
    requires IsTally(bs, out, keys, counts)
    requires Lowest(bs, out, l) && forall c :: !Majority(bs, out, c)
    requires Distinct(remaining)
    requires forall c :: c in remaining <==> c in keys && c !in out + {l}
    ensures |remaining| > 0
    ensures |remaining| == 1 ==> LastOneLeft(bs, out, remaining[0], l)
    ensures |remaining| > 1 ==> Eliminates(bs, out, l)
  {
    assert !Majority(bs, out, l);
    forall c | Votes(bs, out, c) > 0 ensures c == l || c in remaining {
      VotesComeFromBallots(bs, out, c);
    }
    if |remaining| == 0 {
      OnlyOneCounted(bs, out, l);
    } else {
      assert remaining[0] in remaining;
      if |remaining| > 1 {
        assert remaining[1] in remaining && remaining[0] != remaining[1];
      }
    }
  }

  lemma {:induction false} OnlyOneCounted(bs: seq<Ballot>, out: set<Id>, l: Id)
    requires forall c :: Votes(bs, out, c) > 0 ==> c == l
    ensures Votes(bs, out, l) == Active(bs, out)
  {
    forall b | b in bs && IsLive(out)(b) ensures CountsFor(l, out)(b) {
      var c := Top(b, out).value;
      CountPositive(bs, CountsFor(c, out));
      assert CountsFor(c, out)(b);
      assert Votes(bs, out, c) > 0;
    }
    CountMono(bs, IsLive(out), CountsFor(l, out));
    CountMono(bs, CountsFor(l, out), IsLive(out));
  }

  ghost predicate TwoCounted(bs: seq<Ballot>, out: set<Id>) {
    exists c, d :: c != d && Votes(bs, out, c) > 0 && Votes(bs, out, d) > 0
  }

  lemma {:induction false} OthersStayCounted(bs: seq<Ballot>, out: set<Id>, l: Id)
    requires Eliminates(bs, out, l)
    ensures TwoCounted(bs, out + {l})
    ensures Active(bs, out + {l}) > 0
  {
    var c, d :| c != d && c != l && d != l && Votes(bs, out, c) > 0 && Votes(bs, out, d) > 0;
    VotesComeFromBallots(bs, out, c);
    VotesComeFromBallots(bs, out, d);
    VotesNeverFall(bs, out, out + {l}, c);
    VotesNeverFall(bs, out, out + {l}, d);
    NobodyCounted(bs, out + {l});
  }

  lemma {:induction false} RoundsGoOn(bs: seq<Ballot>, elim: seq<Id>, l: Id)
    requires Rounds(bs, elim) && Eliminates(bs, Elements(elim), l)
    ensures Rounds(bs, elim + [l])
  {
    var more := elim + [l];
    assert more[..|more| - 1] == elim;
  }

  lemma {:induction false} ElementsOfSnoc(elim: seq<Id>, l: Id)
    ensures Elements(elim + [l]) == Elements(elim) + {l}
  {
  }

  datatype RoundResult = NothingToCount | Winner(cand: Id) | GoOn(lowest: Id)

  /** One pass of the counting loop over the ballots that are not blank. */
  method CountRound(ghost ballots: seq<Ballot>, active: seq<Ballot>, eliminated: set<Id>) returns (r: RoundResult)
    requires active == Marked(ballots)
    ensures r.NothingToCount? <==> Active(ballots, eliminated) == 0
    ensures r.Winner? ==> Wins(ballots, eliminated, r.cand) && Votes(ballots, eliminated, r.cand) > 0
    ensures r.GoOn? ==> Eliminates(ballots, eliminated, r.lowest)
  {
    var keys, counts := Tally(active, eliminated);
    TallyMarked(ballots, eliminated, keys, counts);
    NobodyCounted(ballots, eliminated);
    if |keys| == 0 {
      return NothingToCount;
    }
    assert Votes(ballots, eliminated, keys[0]) > 0;
    var leader := OverHalf(keys, counts);
    if leader.Some? {
      assert Majority(ballots, eliminated, leader.value);
      return Winner(leader.value);
    }
    var lowest := FewestVotes(keys, counts);
    LowestIsLowest(ballots, eliminated, keys, counts, lowest);
    var remaining := StillIn(keys, eliminated + {lowest});
    RemainingKeys(ballots, eliminated, keys, counts, lowest, remaining);
    if |remaining| <= 1 {
      assert remaining[0] in remaining;
      return Winner(remaining[0]);
    }
    return GoOn(lowest);
  }

  /** `[list(b) for b in ballots if b]`. */
  method NotBlank(ballots: seq<Ballot>) returns (active: seq<Ballot>)
    ensures active == Marked(ballots)
  {
    active := [];
    for i := 0 to |ballots|
      invariant active == Marked(ballots[..i])
    {
      assert ballots[..i + 1][..i] == ballots[..i];
      if |ballots[i]| > 0 {
        active := active + [ballots[i]];
      }
    }
    assert ballots[..|ballots|] == ballots;
  }

  method AvCount(ballots: seq<Ballot>) returns (winner: Option<Id>, ghost elim: seq<Id>)
    ensures winner.None? <==> forall b :: b in ballots ==> b == []
    ensures winner.Some? ==> Elects(ballots, elim, winner.value) && winner.value in Candidates(ballots)
  {
    elim := [];
    CountPositive(ballots, IsLive({}));
    if |ballots| == 0 {
      return None, elim;
    }
    var active := NotBlank(ballots);
    var eliminated: set<Id> := {};
    while true
      invariant eliminated == Elements(elim) && Rounds(ballots, elim)
      invariant |elim| > 0 ==> Active(ballots, eliminated) > 0
      decreases Candidates(ballots) - eliminated
    {
      var round := CountRound(ballots, active, eliminated);
      match round
      case NothingToCount =>
        assert elim == [];
        return None, elim;
      case Winner(cand) =>
        VotesComeFromBallots(ballots, eliminated, cand);
        return Some(cand), elim;
      case GoOn(lowest) =>
        VotesComeFromBallots(ballots, eliminated, lowest);
        OthersStayCounted(ballots, eliminated, lowest);
        RoundsGoOn(ballots, elim, lowest);
        ElementsOfSnoc(elim, lowest);
        eliminated := eliminated + {lowest};
        elim := elim + [lowest];
    }
  }
}
