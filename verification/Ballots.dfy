/** Ranked ballots, and the counts that every counting rule in
    backend/app/service/result_service.py is built from. */
module Ballots {
  /** Identifiers (UUIDs in the source). */
  datatype Id = Uuid(text: nat)

  /** A ballot lists candidates, most preferred first. */
  type Ballot = seq<Id>

  datatype Option<+T> = None | Some(value: T)

  function Elements<T>(s: seq<T>): set<T> {
    set x | x in s
  }

  ghost predicate Distinct<T>(s: seq<T>) {
    forall i, j :: 0 <= i < j < |s| ==> s[i] != s[j]
  }

  lemma {:induction false} SubsetSize<T>(a: set<T>, b: set<T>)
    requires a <= b
    ensures |a| <= |b|
  {
    assert b == a + (b - a);
  }

  /** The candidate a ballot counts for once the candidates in `out` are passed over. */
  function Top(b: Ballot, out: set<Id>): (r: Option<Id>)
    ensures r.Some? ==> r.value in b && r.value !in out
    ensures r.None? <==> forall c :: c in b ==> c in out
  {
    if |b| == 0 then None
    else if b[0] !in out then Some(b[0])
    else Top(b[1..], out)
  }

  /** How many ballots satisfy `p`. */
  function Count(bs: seq<Ballot>, p: Ballot -> bool): nat {
    if |bs| == 0 then 0
    else Count(bs[..|bs| - 1], p) + if p(bs[|bs| - 1]) then 1 else 0
  }

  function CountsFor(c: Id, out: set<Id>): Ballot -> bool {
    b => Top(b, out) == Some(c)
  }

  function IsLive(out: set<Id>): Ballot -> bool {
    b => Top(b, out).Some?
  }

  /** The votes of candidate `c` in the round where `out` has been removed. */
  function Votes(bs: seq<Ballot>, out: set<Id>, c: Id): nat {
    Count(bs, CountsFor(c, out))
  }

  /** The ballots that still count for somebody. */
  function Active(bs: seq<Ballot>, out: set<Id>): nat {
    Count(bs, IsLive(out))
  }

  function IsMarked(): Ballot -> bool {
    b => |b| > 0
  }

  /** `S` is exactly what some initial stretch of `b` lists. */
  ghost predicate Solid(b: Ballot, S: set<Id>) {
    exists k :: 0 <= k <= |b| && Elements(b[..k]) == S
  }

  ghost function IsSolid(S: set<Id>): Ballot -> bool {
    b => Solid(b, S)
  }

  // ---- Laws of counting ----

  lemma {:induction false} CountMono(bs: seq<Ballot>, p: Ballot -> bool, q: Ballot -> bool)
    requires forall b :: b in bs && p(b) ==> q(b)
    ensures Count(bs, p) <= Count(bs, q)
  {
    if |bs| > 0 {
      CountMono(bs[..|bs| - 1], p, q);
    }
  }

  lemma {:induction false} CountSplit(bs: seq<Ballot>, p: Ballot -> bool, q: Ballot -> bool, r: Ballot -> bool)
    requires forall b :: b in bs ==> !(p(b) && q(b))
    requires forall b :: b in bs && (p(b) || q(b)) ==> r(b)
    ensures Count(bs, p) + Count(bs, q) <= Count(bs, r)
  {
    if |bs| > 0 {
      CountSplit(bs[..|bs| - 1], p, q, r);
    }
  }

  lemma {:induction false} CountPositive(bs: seq<Ballot>, p: Ballot -> bool)
    ensures Count(bs, p) > 0 <==> exists b :: b in bs && p(b)
  {
    if |bs| > 0 {
      var rest, last := bs[..|bs| - 1], bs[|bs| - 1];
      CountPositive(rest, p);
      assert bs == rest + [last];
    }
  }

  lemma {:induction false} CountAtMost(bs: seq<Ballot>, p: Ballot -> bool)
    ensures Count(bs, p) <= |bs|
  {
    if |bs| > 0 {
      CountAtMost(bs[..|bs| - 1], p);
    }
  }

  lemma {:induction false} CountPrefix(bs: seq<Ballot>, i: nat, p: Ballot -> bool)
    requires i < |bs|
    ensures Count(bs[..i + 1], p) == Count(bs[..i], p) + if p(bs[i]) then 1 else 0
  {
    assert bs[..i + 1][..i] == bs[..i];
  }

  /** A solid ballot counts inside `S` while any of `S` is still in. */
  lemma {:induction false} SolidTop(b: Ballot, S: set<Id>, out: set<Id>)
    requires Solid(b, S) && !(S <= out)
    ensures Top(b, out).Some? && Top(b, out).value in S
  {
    var k :| 0 <= k <= |b| && Elements(b[..k]) == S;
    TopInPrefix(b, k, out);
  }

  lemma {:induction false} TopInPrefix(b: Ballot, k: nat, out: set<Id>)
    requires k <= |b| && !(Elements(b[..k]) <= out)
    ensures Top(b, out).Some? && Top(b, out).value in b[..k]
  {
    if b[0] in out {
      var c :| c in b[..k] && c !in out;
      assert b[..k] == [b[0]] + b[1..][..k - 1];
      assert c in b[1..][..k - 1];
      TopInPrefix(b[1..], k - 1, out);
    }
  }

  /** Removing more candidates leaves a ballot alone unless its own choice is removed. */
  lemma {:induction false} TopStable(b: Ballot, out: set<Id>, more: set<Id>)
    requires out <= more
    requires Top(b, out).Some? && Top(b, out).value !in more
    ensures Top(b, more) == Top(b, out)
  {
    if b[0] in out {
      TopStable(b[1..], out, more);
    }
  }

  /** `c` is among those with the fewest votes, of those that have any. */
  ghost predicate Lowest(bs: seq<Ballot>, out: set<Id>, c: Id) {
    && Votes(bs, out, c) > 0
    && forall d :: Votes(bs, out, d) > 0 ==> Votes(bs, out, c) <= Votes(bs, out, d)
  }

  function Candidates(bs: seq<Ballot>): set<Id> {
    set b, c | b in bs && c in b :: c
  }

  lemma {:induction false} VotesComeFromBallots(bs: seq<Ballot>, out: set<Id>, c: Id)
    requires Votes(bs, out, c) > 0
    ensures c in Candidates(bs) && c !in out
  {
    CountPositive(bs, CountsFor(c, out));
  }

  /** Nobody is counted exactly when no ballot has anyone left. */
  lemma {:induction false} NobodyCounted(bs: seq<Ballot>, out: set<Id>)
    ensures Active(bs, out) == 0 <==> forall c :: Votes(bs, out, c) == 0
  {
    CountPositive(bs, IsLive(out));
    if Active(bs, out) > 0 {
      var b :| b in bs && IsLive(out)(b);
      CountPositive(bs, CountsFor(Top(b, out).value, out));
      assert Votes(bs, out, Top(b, out).value) > 0;
    } else {
      forall c ensures Votes(bs, out, c) == 0 {
        CountPositive(bs, CountsFor(c, out));
      }
    }
  }

  /** Eliminating a candidate never takes votes away from another one. */
  lemma {:induction false} VotesNeverFall(bs: seq<Ballot>, out: set<Id>, more: set<Id>, c: Id)
    requires out <= more && c !in more
    ensures Votes(bs, out, c) <= Votes(bs, more, c)
  {
    forall b | b in bs && CountsFor(c, out)(b) ensures CountsFor(c, more)(b) {
      TopStable(b, out, more);
    }
    CountMono(bs, CountsFor(c, out), CountsFor(c, more));
  }
}
