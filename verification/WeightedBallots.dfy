/** Ballots that carry a weight, as the Single Transferable Vote count of
    backend/app/service/result_service.py keeps them. Weights are exact reals here. */
module WeightedBallots {
  import opened Ballots

  datatype Weighted = Weighted(prefs: Ballot, weight: real)

  function Prefs(ws: seq<Weighted>): (bs: seq<Ballot>)
    ensures |bs| == |ws| && forall i :: 0 <= i < |ws| ==> bs[i] == ws[i].prefs
  {
    if |ws| == 0 then [] else Prefs(ws[..|ws| - 1]) + [ws[|ws| - 1].prefs]
  }

  /** The total weight of the ballots that satisfy `p`. */
  function Weight(ws: seq<Weighted>, p: Ballot -> bool): real {
    if |ws| == 0 then 0.0
    else Weight(ws[..|ws| - 1], p) + if p(ws[|ws| - 1].prefs) then ws[|ws| - 1].weight else 0.0
  }

  ghost predicate AllFull(ws: seq<Weighted>) {
    forall i :: 0 <= i < |ws| ==> ws[i].weight == 1.0
  }

  lemma {:induction false} FullWeightIsCount(ws: seq<Weighted>, p: Ballot -> bool)
    requires AllFull(ws)
    ensures Weight(ws, p) == Count(Prefs(ws), p) as real
  {
    if |ws| > 0 {
      FullWeightIsCount(ws[..|ws| - 1], p);
      assert Prefs(ws)[..|ws| - 1] == Prefs(ws[..|ws| - 1]);
    }
  }

  lemma {:induction false} WeightPrefix(ws: seq<Weighted>, i: nat, p: Ballot -> bool)
    requires i < |ws|
    ensures Weight(ws[..i + 1], p) == Weight(ws[..i], p) + if p(ws[i].prefs) then ws[i].weight else 0.0
  {
    assert ws[..i + 1][..i] == ws[..i];
  }

  lemma {:induction false} PrefsPrefix(ws: seq<Weighted>, i: nat)
    requires i <= |ws|
    ensures Prefs(ws[..i]) == Prefs(ws)[..i]
  {
  }

  // ---- One counting round ----

  /** The dictionary `counts`, keys in insertion order, is the weighted tally of `ws`. */
  ghost predicate IsTally(ws: seq<Weighted>, out: set<Id>, keys: seq<Id>, counts: map<Id, real>) {
    && Distinct(keys)
    && (forall c :: c in counts <==> c in keys)
    && (forall c :: c in keys <==> Votes(Prefs(ws), out, c) > 0)
    && (forall c :: c in keys ==> counts[c] == Weight(ws, CountsFor(c, out)))
  }

  lemma {:induction false} NoVotesNoWeight(ws: seq<Weighted>, p: Ballot -> bool)
    ensures Count(Prefs(ws), p) == 0 ==> Weight(ws, p) == 0.0
  {
    if |ws| > 0 {
      assert Prefs(ws)[..|ws| - 1] == Prefs(ws[..|ws| - 1]);
      NoVotesNoWeight(ws[..|ws| - 1], p);
    }
  }

  lemma {:induction false} TallyNext(ws: seq<Weighted>, i: nat, out: set<Id>)
    requires i < |ws|
    ensures forall c :: Votes(Prefs(ws[..i + 1]), out, c)
                        == Votes(Prefs(ws[..i]), out, c) + if Top(ws[i].prefs, out) == Some(c) then 1 else 0
    ensures forall c :: Weight(ws[..i + 1], CountsFor(c, out))
                        == Weight(ws[..i], CountsFor(c, out))
                          + if Top(ws[i].prefs, out) == Some(c) then ws[i].weight else 0.0
  {
    PrefsPrefix(ws, i);
    PrefsPrefix(ws, i + 1);
    forall c ensures Votes(Prefs(ws[..i + 1]), out, c)
                     == Votes(Prefs(ws[..i]), out, c) + if Top(ws[i].prefs, out) == Some(c) then 1 else 0
    {
      CountPrefix(Prefs(ws), i, CountsFor(c, out));
    }
    forall c ensures Weight(ws[..i + 1], CountsFor(c, out))
                     == Weight(ws[..i], CountsFor(c, out))
                       + if Top(ws[i].prefs, out) == Some(c) then ws[i].weight else 0.0
    {
      WeightPrefix(ws, i, CountsFor(c, out));
    }
  }

  ghost predicate Added(keys: seq<Id>, counts: map<Id, real>, cand: Id, weight: real,
                        keys': seq<Id>, counts': map<Id, real>) {
    && Distinct(keys')
    && (forall c :: c in counts' <==> c in keys')
    && (forall c :: c in keys' <==> c in keys || c == cand)
    && (forall c :: c in keys' && c != cand && c in counts ==> counts'[c] == counts[c])
    && (cand in counts' ==> counts'[cand] == (if cand in counts then counts[cand] else 0.0) + weight)
  }

  /** `counts[cand] += weight` on a `defaultdict(float)`. */
  method AddWeight(keys: seq<Id>, counts: map<Id, real>, cand: Id, weight: real)
    returns (keys': seq<Id>, counts': map<Id, real>)
    requires Distinct(keys) && forall c :: c in counts <==> c in keys
    ensures Added(keys, counts, cand, weight, keys', counts')
  {
    if cand in counts {
      keys', counts' := keys, counts[cand := counts[cand] + weight];
    } else {
      keys', counts' := keys + [cand], counts[cand := weight];
    }
  }

  lemma {:induction false} TallyCounted(ws: seq<Weighted>, i: nat, out: set<Id>, keys: seq<Id>, counts: map<Id, real>,
                                        cand: Id,
                     keys': seq<Id>, counts': map<Id, real>)
    requires i < |ws| && IsTally(ws[..i], out, keys, counts) && Top(ws[i].prefs, out) == Some(cand)
    requires Added(keys, counts, cand, ws[i].weight, keys', counts')
    ensures IsTally(ws[..i + 1], out, keys', counts')
  {
    TallyNext(ws, i, out);
    NoVotesNoWeight(ws[..i], CountsFor(cand, out));
    forall c ensures c in keys' <==> Votes(Prefs(ws[..i + 1]), out, c) > 0 {
    }
    forall c | c in keys' ensures counts'[c] == Weight(ws[..i + 1], CountsFor(c, out)) {
    }
  }

  lemma {:induction false} TallySkipped(ws: seq<Weighted>, i: nat, out: set<Id>, keys: seq<Id>, counts: map<Id, real>)
    requires i < |ws| && IsTally(ws[..i], out, keys, counts) && Top(ws[i].prefs, out) == None
    ensures IsTally(ws[..i + 1], out, keys, counts)
  {
    TallyNext(ws, i, out);
  }

  /** One counting round: every ballot adds its weight to its first candidate that is not out. */
  method Tally(ws: seq<Weighted>, out: set<Id>) returns (keys: seq<Id>, counts: map<Id, real>)
    ensures IsTally(ws, out, keys, counts)
  {
    keys, counts := [], map[];
    for i := 0 to |ws|
      invariant IsTally(ws[..i], out, keys, counts)
    {
      var prefs, weight := ws[i].prefs, ws[i].weight;
      var j := 0;
      while j < |prefs| && prefs[j] in out
        invariant j <= |prefs|
        invariant Top(prefs, out) == Top(prefs[j..], out)
      {
        j := j + 1;
      }
      if j < |prefs| {
        ghost var keys0, counts0 := keys, counts;
        keys, counts := AddWeight(keys, counts, prefs[j], weight);
        TallyCounted(ws, i, out, keys0, counts0, prefs[j], keys, counts);
      } else {
        TallySkipped(ws, i, out, keys, counts);
      }
    }
    assert ws[..|ws|] == ws;
  }

  // ---- Transferring a surplus ----

  /** Multiplying a weight by the transfer ratio. */
  function Times(ratio: real): real -> real {
    weight => weight * ratio
  }

  function Scaled(w: Weighted, out: set<Id>, c: Id, scale: real -> real): Weighted {
    if Top(w.prefs, out) == Some(c) then Weighted(w.prefs, scale(w.weight)) else w
  }

  /** The weight of every ballot that now counts for `c` is scaled. */
  function Transfer(ws: seq<Weighted>, out: set<Id>, c: Id, scale: real -> real): (r: seq<Weighted>)
    ensures |r| == |ws|
    ensures forall i :: 0 <= i < |ws| ==> r[i] == Scaled(ws[i], out, c, scale)
  {
    if |ws| == 0 then [] else
    Transfer(ws[..|ws| - 1], out, c, scale) + [Scaled(ws[|ws| - 1], out, c, scale)]
  }

  /** The loop over `enumerate(weighted_ballots)` that scales the ballots of `c`. */
  method TransferSurplus(ws: seq<Weighted>, out: set<Id>, c: Id, ratio: real) returns (r: seq<Weighted>)
    ensures r == Transfer(ws, out, c, Times(ratio))
  {
    ghost var scale := Times(ratio);
    r := ws;
    for i := 0 to |ws|
      invariant |r| == |ws|
      invariant forall k :: 0 <= k < i ==> r[k] == Scaled(ws[k], out, c, scale)
      invariant forall k :: i <= k < |ws| ==> r[k] == ws[k]
    {
      var active := StillActive(ws[i].prefs, out);
      if |active| > 0 && active[0] == c {
        r := r[i := Weighted(ws[i].prefs, Times(ratio)(ws[i].weight))];
      }
    }
  }

  /** `[p for p in prefs if p not in eliminated and p not in elected]`. */
  method StillActive(prefs: Ballot, out: set<Id>) returns (active: seq<Id>)
    ensures Top(prefs, out) == if |active| > 0 then Some(active[0]) else None
  {
    active := [];
    for j := 0 to |prefs|
      invariant |active| == 0 ==> Top(prefs, out) == Top(prefs[j..], out)
      invariant |active| > 0 ==> Top(prefs, out) == Some(active[0])
    {
      if prefs[j] !in out {
        active := active + [prefs[j]];
      }
    }
  }

  /** Once `c` is out no ballot counts for it, so the transfer finds nothing to scale. */
  lemma {:induction false} TransferOfElected(ws: seq<Weighted>, out: set<Id>, c: Id, scale: real -> real)
    requires c in out
    ensures Transfer(ws, out, c, scale) == ws
  {
  }
}
