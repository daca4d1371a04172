/** Counts do not depend on the order in which ballots are read. */
module Permutations {
  import opened Ballots
  import opened RankedRows
  import AlternativeVote
  import SingleTransferableVote

  lemma {:induction false} CountOfPermutation(bs: seq<Ballot>, cs: seq<Ballot>, p: Ballot -> bool)
    requires multiset(bs) == multiset(cs)
    ensures Count(bs, p) == Count(cs, p)
    decreases |bs|
  {
    if |bs| == 0 {
      assert |multiset(cs)| == |cs|;
    } else {
      var n := |bs| - 1;
      var i := WhereLast(bs, cs);
      CountOfPermutation(bs[..n], cs[..i] + cs[i + 1..], p);
      CountRemove(cs, i, p);
    }
  }

  lemma {:induction false} CountConcat(a: seq<Ballot>, b: seq<Ballot>, p: Ballot -> bool)
    ensures Count(a + b, p) == Count(a, p) + Count(b, p)
  {
    if |b| == 0 {
      assert a + b == a;
    } else {
      assert (a + b)[..|a + b| - 1] == a + b[..|b| - 1];
      CountConcat(a, b[..|b| - 1], p);
    }
  }

  lemma {:induction false} CountRemove(bs: seq<Ballot>, i: nat, p: Ballot -> bool)
    requires i < |bs|
    ensures Count(bs, p) == Count(bs[..i] + bs[i + 1..], p) + if p(bs[i]) then 1 else 0
  {
    assert bs == bs[..i] + ([bs[i]] + bs[i + 1..]);
    CountConcat(bs[..i], [bs[i]] + bs[i + 1..], p);
    CountConcat([bs[i]], bs[i + 1..], p);
    CountConcat(bs[..i], bs[i + 1..], p);
    assert [bs[i]][..0] == [];
    assert Count([bs[i]], p) == if p(bs[i]) then 1 else 0;
  }

  /** No round can tell the two apart. */
  ghost predicate CountAlike(bs: seq<Ballot>, cs: seq<Ballot>) {
    && |bs| == |cs|
    && (forall out :: Active(bs, out) == Active(cs, out))
    && forall out, c :: Votes(bs, out, c) == Votes(cs, out, c)
  }

  lemma {:induction false} PermutationsCountAlike(bs: seq<Ballot>, cs: seq<Ballot>)
    requires multiset(bs) == multiset(cs)
    ensures CountAlike(bs, cs)
  {
    assert |bs| == |multiset(bs)| == |cs|;
    forall out ensures Active(bs, out) == Active(cs, out) {
      CountOfPermutation(bs, cs, IsLive(out));
    }
    forall out, c ensures Votes(bs, out, c) == Votes(cs, out, c) {
      CountOfPermutation(bs, cs, CountsFor(c, out));
    }
  }

  // ---- The Alternative Vote ----

  lemma {:induction false} SameRoundOfAv(bs: seq<Ballot>, cs: seq<Ballot>, out: set<Id>)
    requires CountAlike(bs, cs)
    ensures forall c :: AlternativeVote.Majority(bs, out, c) <==> AlternativeVote.Majority(cs, out, c)
    ensures forall l :: Lowest(bs, out, l) <==> Lowest(cs, out, l)
  {
    forall c ensures AlternativeVote.Majority(bs, out, c) <==> AlternativeVote.Majority(cs, out, c) {
      assert Votes(bs, out, c) == Votes(cs, out, c);
    }
    forall l ensures Lowest(bs, out, l) <==> Lowest(cs, out, l) {
      assert Votes(bs, out, l) == Votes(cs, out, l);
    }
  }

  lemma {:induction false} SameRoundsOfAv(bs: seq<Ballot>, cs: seq<Ballot>, elim: seq<Id>)
    requires CountAlike(bs, cs) && AlternativeVote.Rounds(bs, elim)
    ensures AlternativeVote.Rounds(cs, elim)
  {
    if |elim| > 0 {
      var front, l := elim[..|elim| - 1], elim[|elim| - 1];
      var out := Elements(front);
      SameRoundsOfAv(bs, cs, front);
      SameRoundOfAv(bs, cs, out);
      var c, d :| c != d && c != l && d != l && Votes(bs, out, c) > 0 && Votes(bs, out, d) > 0;
      assert Votes(cs, out, c) > 0 && Votes(cs, out, d) > 0;
    }
  }

  /** Whom the Alternative Vote elects, and how, is a matter of the ballots and not of their order. */
  lemma {:induction false} AvIgnoresBallotOrder(bs: seq<Ballot>, cs: seq<Ballot>, elim: seq<Id>, w: Id)
    requires CountAlike(bs, cs) && AlternativeVote.Elects(bs, elim, w)
    ensures AlternativeVote.Elects(cs, elim, w)
  {
    SameRoundsOfAv(bs, cs, elim);
    var out := Elements(elim);
    SameRoundOfAv(bs, cs, out);
    if !AlternativeVote.Majority(bs, out, w) {
      var l :| AlternativeVote.LastOneLeft(bs, out, w, l);
      assert AlternativeVote.LastOneLeft(cs, out, w, l);
    }
  }

  // ---- The Single Transferable Vote ----

  lemma {:induction false} SameRoundOfStv(bs: seq<Ballot>, cs: seq<Ballot>, seats: nat, q: nat,
                       s: SingleTransferableVote.Progress, t: SingleTransferableVote.Progress)
    requires CountAlike(bs, cs) && SingleTransferableVote.Round(bs, seats, q, s, t)
    ensures SingleTransferableVote.Round(cs, seats, q, s, t)
  {
    var out := SingleTransferableVote.Out(s);
    forall c ensures SingleTransferableVote.MeetsQuota(bs, q, out, c)
      <==> SingleTransferableVote.MeetsQuota(cs, q, out, c)
    {
    }
    SameRoundOfAv(bs, cs, out);
    if SingleTransferableVote.ElectsBatch(bs, seats, q, s, t) {
      var batch :| SingleTransferableVote.IsBatch(bs, seats, q, s, batch)
                   && t == SingleTransferableVote.Progress(s.elected + batch, s.eliminated);
      assert SingleTransferableVote.IsBatch(cs, seats, q, s, batch);
    }
  }

  lemma {:induction false} SameRunOfStv(bs: seq<Ballot>, cs: seq<Ballot>, seats: nat, q: nat,
                                        trace: seq<SingleTransferableVote.Progress>)
    requires CountAlike(bs, cs) && SingleTransferableVote.Run(bs, seats, q, trace)
    ensures SingleTransferableVote.Run(cs, seats, q, trace)
  {
    if |trace| > 1 {
      SameRunOfStv(bs, cs, seats, q, trace[..|trace| - 1]);
      SameRoundOfStv(bs, cs, seats, q, trace[|trace| - 2], trace[|trace| - 1]);
    }
  }

  /** Nor is whom the Single Transferable Vote elects. */
  lemma {:induction false} StvIgnoresBallotOrder(bs: seq<Ballot>, cs: seq<Ballot>, seats: nat,
                              trace: seq<SingleTransferableVote.Progress>, elected: seq<Id>)
    requires CountAlike(bs, cs) && SingleTransferableVote.Elects(bs, seats, trace, elected)
    ensures SingleTransferableVote.Elects(cs, seats, trace, elected)
  {
    SameRunOfStv(bs, cs, seats, SingleTransferableVote.Quota(|bs|, seats), trace);
  }
}
