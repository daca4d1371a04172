/** What every run of the Alternative Vote count guarantees, however ties are broken. */
module AlternativeVoteTheorems {
  import opened Ballots
  import opened AlternativeVote

  // ---- Mutual majority ----

  /** More than half of the ballots that are not blank list all of `S` before anybody else. */
  ghost predicate MutualMajority(bs: seq<Ballot>, S: set<Id>) {
    S != {} && 2 * Count(bs, IsSolid(S)) > Count(bs, IsMarked())
  }

  lemma {:induction false} ActiveAreMarked(bs: seq<Ballot>, out: set<Id>)
    ensures Active(bs, out) <= Count(bs, IsMarked())
  {
    CountMono(bs, IsLive(out), IsMarked());
  }

  /** While one of `S` is in, somebody outside `S` only gets what the coalition leaves over. */
  lemma {:induction false} OutsiderVotes(bs: seq<Ballot>, S: set<Id>, out: set<Id>, c: Id)
    requires !(S <= out) && c !in S
    ensures Votes(bs, out, c) + Count(bs, IsSolid(S)) <= Active(bs, out)
  {
    forall b | b in bs && IsSolid(S)(b) ensures IsLive(out)(b) && !CountsFor(c, out)(b) {
      SolidTop(b, S, out);
    }
    CountSplit(bs, CountsFor(c, out), IsSolid(S), IsLive(out));
  }

  /** The last of `S` gets every vote of the coalition. */
  lemma {:induction false} LastOfCoalition(bs: seq<Ballot>, S: set<Id>, out: set<Id>, c: Id)
    requires c !in out && c in S && forall d :: d in S ==> d == c || d in out
    ensures Count(bs, IsSolid(S)) <= Votes(bs, out, c)
  {
    forall b | b in bs && IsSolid(S)(b) ensures CountsFor(c, out)(b) {
      SolidTop(b, S, out);
    }
    CountMono(bs, IsSolid(S), CountsFor(c, out));
  }

  lemma {:induction false} LastElement(elim: seq<Id>)
    requires |elim| > 0
    ensures Elements(elim) == Elements(elim[..|elim| - 1]) + {elim[|elim| - 1]}
  {
    assert elim == elim[..|elim| - 1] + [elim[|elim| - 1]];
  }

  lemma {:induction false} EliminationSparesMajority(bs: seq<Ballot>, S: set<Id>, out: set<Id>, l: Id)
    requires MutualMajority(bs, S) && !(S <= out) && !Majority(bs, out, l)
    ensures !(S <= out + {l})
  {
    if S <= out + {l} {
      LastOfCoalition(bs, S, out, l);
      ActiveAreMarked(bs, out);
    }
  }

  lemma {:induction false} CoalitionSurvives(bs: seq<Ballot>, S: set<Id>, elim: seq<Id>)
    requires MutualMajority(bs, S) && Rounds(bs, elim)
    ensures !(S <= Elements(elim))
  {
    if |elim| > 0 {
      var front, l := elim[..|elim| - 1], elim[|elim| - 1];
      CoalitionSurvives(bs, S, front);
      EliminationSparesMajority(bs, S, Elements(front), l);
      LastElement(elim);
    }
  }

  /** A set of candidates backed by a mutual majority always holds the winner. */
  lemma {:induction false} MutualMajorityWins(bs: seq<Ballot>, S: set<Id>, elim: seq<Id>, w: Id)
    requires MutualMajority(bs, S) && Elects(bs, elim, w)
    ensures w in S
  {
    var out := Elements(elim);
    CoalitionSurvives(bs, S, elim);
    ActiveAreMarked(bs, out);
    if w !in S {
      OutsiderVotes(bs, S, out, w);
      if !Majority(bs, out, w) {
        var l :| LastOneLeft(bs, out, w, l);
        forall b | b in bs && IsSolid(S)(b) ensures CountsFor(l, out)(b) {
          SolidTop(b, S, out);
          CountPositive(bs, CountsFor(Top(b, out).value, out));
          assert CountsFor(Top(b, out).value, out)(b);
          assert Votes(bs, out, Top(b, out).value) > 0;
        }
        assert !Majority(bs, out, l);
        CountMono(bs, IsSolid(S), CountsFor(l, out));
      }
    }
  }

  // ---- Condorcet loser ----

  /** The ballot lists `x`, and no `y` before it. */
  predicate Prefers(b: Ballot, x: Id, y: Id) {
    |b| > 0 && (b[0] == x || (b[0] != y && Prefers(b[1..], x, y)))
  }

  function PrefersTo(x: Id, y: Id): Ballot -> bool {
    b => Prefers(b, x, y)
  }

  lemma {:induction false} TopIsPreferred(b: Ballot, out: set<Id>, x: Id, y: Id)
    requires Top(b, out) == Some(x) && y !in out
    ensures Prefers(b, x, y)
  {
    if b[0] in out {
      TopIsPreferred(b[1..], out, x, y);
    }
  }

  lemma {:induction false} PreferredIsNotTop(b: Ballot, out: set<Id>, x: Id, y: Id)
    requires Prefers(b, x, y) && x !in out && x != y
    ensures Top(b, out).Some? && Top(b, out) != Some(y)
  {
    if b[0] in out {
      PreferredIsNotTop(b[1..], out, x, y);
    }
  }

  /** `w` does not lose the pairwise contest against `c`. */
  ghost predicate Holds(bs: seq<Ballot>, w: Id, c: Id) {
    Count(bs, PrefersTo(w, c)) >= Count(bs, PrefersTo(c, w))
  }

  lemma {:induction false} VotesArePreferences(bs: seq<Ballot>, out: set<Id>, w: Id, c: Id)
    requires c !in out && w !in out && c != w
    ensures Votes(bs, out, w) <= Count(bs, PrefersTo(w, c))
    ensures Votes(bs, out, w) + Count(bs, PrefersTo(c, w)) <= Active(bs, out)
  {
    forall b | b in bs && CountsFor(w, out)(b) ensures PrefersTo(w, c)(b) && IsLive(out)(b) {
      TopIsPreferred(b, out, w, c);
    }
    CountMono(bs, CountsFor(w, out), PrefersTo(w, c));
    forall b | b in bs && PrefersTo(c, w)(b) ensures IsLive(out)(b) && !CountsFor(w, out)(b) {
      PreferredIsNotTop(b, out, c, w);
    }
    CountSplit(bs, CountsFor(w, out), PrefersTo(c, w), IsLive(out));
  }

  lemma {:induction false} RoundsLeaveTwo(bs: seq<Ballot>, elim: seq<Id>)
    requires Rounds(bs, elim) && |elim| > 0
    ensures TwoCounted(bs, Elements(elim))
  {
    var front, l := elim[..|elim| - 1], elim[|elim| - 1];
    OthersStayCounted(bs, Elements(front), l);
    LastElement(elim);
  }

  /** After every elimination two candidates are still counted, so `w` still has a rival. */
  lemma {:induction false} RivalStillIn(bs: seq<Ballot>, elim: seq<Id>, w: Id) returns (c: Id)
    requires Rounds(bs, elim)
    requires exists d :: d in Candidates(bs) && d != w
    ensures c in Candidates(bs) && c != w && c !in Elements(elim)
  {
    if |elim| == 0 {
      c :| c in Candidates(bs) && c != w;
    } else {
      RoundsLeaveTwo(bs, elim);
      c := OneOfTwo(bs, Elements(elim), w);
    }
  }

  lemma {:induction false} OneOfTwo(bs: seq<Ballot>, out: set<Id>, w: Id) returns (c: Id)
    requires TwoCounted(bs, out)
    ensures c in Candidates(bs) && c != w && c !in out
  {
    var x, y :| x != y && Votes(bs, out, x) > 0 && Votes(bs, out, y) > 0;
    c := if x == w then y else x;
    VotesComeFromBallots(bs, out, c);
  }

  /** With a rival on the ballots, the winner loses the pairwise contest to at least one of
      them at most as a tie: a Condorcet loser is never elected. */
  lemma {:induction false} NeverACondorcetLoser(bs: seq<Ballot>, elim: seq<Id>, w: Id)
    requires Elects(bs, elim, w)
    requires exists d :: d in Candidates(bs) && d != w
    ensures exists c :: c in Candidates(bs) && c != w && Holds(bs, w, c)
  {
    var out := Elements(elim);
    if Majority(bs, out, w) {
      var c := RivalStillIn(bs, elim, w);
      VotesComeFromBallots(bs, out, w);
      VotesArePreferences(bs, out, w, c);
      assert Holds(bs, w, c);
    } else {
      var l :| LastOneLeft(bs, out, w, l);
      VotesComeFromBallots(bs, out, w);
      VotesComeFromBallots(bs, out, l);
      VotesArePreferences(bs, out, w, l);
      OnlyTwoCounted(bs, out, w, l);
      assert Holds(bs, w, l);
    }
  }

  lemma {:induction false} OnlyTwoCounted(bs: seq<Ballot>, out: set<Id>, w: Id, l: Id)
    requires w != l && forall c :: Votes(bs, out, c) > 0 ==> c == w || c == l
    ensures Active(bs, out) == Votes(bs, out, w) + Votes(bs, out, l)
    decreases |bs|
  {
    if |bs| > 0 {
      var front, last := bs[..|bs| - 1], bs[|bs| - 1];
      forall c | Votes(front, out, c) > 0 ensures c == w || c == l {
        assert Votes(bs, out, c) > 0;
      }
      OnlyTwoCounted(front, out, w, l);
      if IsLive(out)(last) {
        assert Votes(bs, out, Top(last, out).value) > 0;
      }
    }
  }

  // ---- Later preferences ----

  /** Each ballot of `cs` is the one of `bs`, or extends one that already lists `w`. */
  ghost predicate AddsAfter(bs: seq<Ballot>, cs: seq<Ballot>, w: Id) {
    |bs| == |cs| && forall i :: 0 <= i < |bs| ==> bs[i] == cs[i] || (w in bs[i] && bs[i] <= cs[i])
  }

  lemma {:induction false} TopOfExtension(b: Ballot, c: Ballot, w: Id, out: set<Id>)
    requires w in b && b <= c && w !in out
    ensures Top(c, out) == Top(b, out)
  {
    if b[0] in out {
      TopOfExtension(b[1..], c[1..], w, out);
    }
  }

  lemma {:induction false} SameCounts(bs: seq<Ballot>, cs: seq<Ballot>, w: Id, out: set<Id>)
    requires AddsAfter(bs, cs, w) && w !in out
    ensures Active(bs, out) == Active(cs, out)
    ensures forall c :: Votes(bs, out, c) == Votes(cs, out, c)
  {
    if |bs| > 0 {
      var n := |bs| - 1;
      SameCounts(bs[..n], cs[..n], w, out);
      if bs[n] != cs[n] {
        TopOfExtension(bs[n], cs[n], w, out);
      }
      forall c ensures Votes(bs, out, c) == Votes(cs, out, c) {
        assert Votes(bs[..n], out, c) == Votes(cs[..n], out, c);
      }
    }
  }

  lemma {:induction false} SameRounds(bs: seq<Ballot>, cs: seq<Ballot>, w: Id, elim: seq<Id>)
    requires AddsAfter(bs, cs, w) && w !in Elements(elim)
    ensures Rounds(bs, elim) <==> Rounds(cs, elim)
  {
    if |elim| > 0 {
      var front, l := elim[..|elim| - 1], elim[|elim| - 1];
      assert elim == front + [l];
      SameRounds(bs, cs, w, front);
      SameCounts(bs, cs, w, Elements(front));
      forall c ensures Majority(bs, Elements(front), c) <==> Majority(cs, Elements(front), c) {
      }
    }
  }

  /** Later-no-harm and later-no-help: whatever voters add below `w` on ballots that list `w`,
      the same rounds elect `w` before and after. */
  lemma {:induction false} LaterPreferencesDoNotMatter(bs: seq<Ballot>, cs: seq<Ballot>, w: Id, elim: seq<Id>)
    requires AddsAfter(bs, cs, w)
    ensures Elects(bs, elim, w) <==> Elects(cs, elim, w)
  {
    var out := Elements(elim);
    if w in out {
      if Votes(bs, out, w) > 0 {
        VotesComeFromBallots(bs, out, w);
      }
      if Votes(cs, out, w) > 0 {
        VotesComeFromBallots(cs, out, w);
      }
    } else {
      SameRounds(bs, cs, w, elim);
      SameCounts(bs, cs, w, out);
      forall c ensures Majority(bs, out, c) <==> Majority(cs, out, c) {
      }
      forall l ensures LastOneLeft(bs, out, w, l) <==> LastOneLeft(cs, out, w, l) {
      }
    }
  }
}
