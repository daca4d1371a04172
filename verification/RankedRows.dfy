/** Ranked ballots as vote rows: how `cast_vote` (backend/app/service/voting_service.py) writes one
    row per preference, and how `_votes_to_ballots` (backend/app/service/result_service.py) puts
    the ballots together again. */
module RankedRows {
  import opened Ballots

  datatype Preference = Preference(rank: nat, candidate: Id)

  /** The columns of a vote row that the count reads. */
  datatype RankedRow = RankedRow(hash: string, pref: Preference)

  // ---- Tokens and their marks ----

  const MARK: string := ":rank"

  function Digits(n: nat): string {
    if n < 10 then [('0' as int + n) as char] else Digits(n / 10) + [('0' as int + n % 10) as char]
  }

  /** `f"{blind_token_hash}:rank{preference_rank}"`. */
  function Marked(token: string, rank: nat): string {
    token + MARK + Digits(rank)
  }

  /** `s.split(":rank")[0]`. */
  function BeforeMark(s: string): string {
    if |s| == 0 || MARK <= s then "" else [s[0]] + BeforeMark(s[1..])
  }

  /** The token of a ballot: what its rows have in common. */
  datatype Token = Token(text: string)

  function BaseOf(row: RankedRow): Token {
    Token(BeforeMark(row.hash))
  }

  /** The mark occurs nowhere in `s`. */
  ghost predicate Clean(s: string) {
    forall i :: 0 <= i < |s| ==> !(MARK <= s[i..])
  }

  lemma {:induction false} MarkDoesNotStraddle(token: string, tail: string)
    requires |token| > 0 && MARK <= token + MARK + tail
    ensures MARK <= token
  {
    var s := token + MARK + tail;
    if |token| < 5 {
      MarkLetter(s, |token|);
    } else {
      assert s[..5] == token[..5];
    }
  }

  /** The mark has its colon only in front. */
  lemma {:induction false} MarkLetter(s: string, k: nat)
    requires MARK <= s && 0 < k < 5
    ensures s[k] != ':'
  {
  }

  /** Splitting a marked token gives the token back exactly when the token holds no mark. */
  lemma {:induction false} SplitUndoesMark(token: string, tail: string)
    ensures BeforeMark(token + MARK + tail) == token <==> Clean(token)
  {
    var s := token + MARK + tail;
    if |token| == 0 {
      assert s == MARK + tail;
    } else {
      assert s[1..] == token[1..] + MARK + tail;
      SplitUndoesMark(token[1..], tail);
      if MARK <= s {
        MarkDoesNotStraddle(token, tail);
        assert token[0..] == token;
      } else {
        assert MARK <= token ==> MARK <= s;
        CleanTail(token);
      }
    }
  }

  lemma {:induction false} CleanTail(token: string)
    requires |token| > 0
    ensures Clean(token) <==> !(MARK <= token) && Clean(token[1..])
  {
    assert token[0..] == token;
    forall i | 0 <= i < |token[1..]| ensures token[1..][i..] == token[i + 1..] {
    }
    if !(MARK <= token) && Clean(token[1..]) {
      forall i | 0 <= i < |token| ensures !(MARK <= token[i..]) {
        if i > 0 {
          assert token[1..][i - 1..] == token[i..];
        }
      }
    }
    if Clean(token) {
      forall i | 0 <= i < |token[1..]| ensures !(MARK <= token[1..][i..]) {
        assert token[1..][i..] == token[i + 1..];
      }
    }
  }

  // ---- Sorting by rank ----

  function Insert(p: Preference, s: seq<Preference>): (r: seq<Preference>)
    ensures multiset(r) == multiset(s) + multiset{p}
  {
    if |s| == 0 then [p]
    else if p.rank < s[0].rank then [p] + s
    else assert s == [s[0]] + s[1..]; [s[0]] + Insert(p, s[1..])
  }

  /** `sorted(prefs, key=lambda x: x[0])`: stable, by rank. */
  function SortByRank(prefs: seq<Preference>): (r: seq<Preference>)
    ensures multiset(r) == multiset(prefs)
  {
    if |prefs| == 0 then []
    else
      assert prefs == prefs[..|prefs| - 1] + [prefs[|prefs| - 1]];
      Insert(prefs[|prefs| - 1], SortByRank(prefs[..|prefs| - 1]))
  }

  ghost predicate Sorted(s: seq<Preference>) {
    forall i, j :: 0 <= i < j < |s| ==> s[i].rank <= s[j].rank
  }

  lemma {:induction false} InsertSorts(p: Preference, s: seq<Preference>)
    requires Sorted(s)
    ensures Sorted(Insert(p, s))
  {
    if |s| > 0 && p.rank >= s[0].rank {
      InsertSorts(p, s[1..]);
      InsertAbove(p, s[1..], s[0].rank);
    }
  }

  lemma {:induction false} InsertAbove(p: Preference, s: seq<Preference>, low: nat)
    requires p.rank >= low && forall i :: 0 <= i < |s| ==> s[i].rank >= low
    ensures forall i :: 0 <= i < |Insert(p, s)| ==> Insert(p, s)[i].rank >= low
  {
    if |s| > 0 && p.rank >= s[0].rank {
      InsertAbove(p, s[1..], low);
    }
  }

  lemma {:induction false} SortByRankSorts(prefs: seq<Preference>)
    ensures Sorted(SortByRank(prefs))
  {
    if |prefs| > 0 {
      SortByRankSorts(prefs[..|prefs| - 1]);
      InsertSorts(prefs[|prefs| - 1], SortByRank(prefs[..|prefs| - 1]));
    }
  }

  /** `sorted(ranks) == list(range(1, len(ranks) + 1))`, on a list that is not empty. */
  predicate ConsecutiveFromOne(prefs: seq<Preference>) {
    && |prefs| > 0
    && |SortByRank(prefs)| == |prefs|
    && forall i :: 0 <= i < |prefs| ==> SortByRank(prefs)[i].rank == i + 1
  }

  function CandidatesOf(s: seq<Preference>): (b: Ballot)
    ensures |b| == |s| && forall i :: 0 <= i < |s| ==> b[i] == s[i].candidate
  {
    if |s| == 0 then [] else CandidatesOf(s[..|s| - 1]) + [s[|s| - 1].candidate]
  }

  /** The ballot that a list of preferences stands for. */
  function InRankOrder(prefs: seq<Preference>): Ballot {
    CandidatesOf(SortByRank(prefs))
  }

  lemma {:induction false} SizeOfMultiset(s: seq<Preference>)
    ensures |multiset(s)| == |s|
  {
  }

  /** On valid preferences the ballot lists, at each rank, the candidate given that rank. */
  lemma {:induction false} RankGivesPosition(prefs: seq<Preference>, p: Preference)
    requires ConsecutiveFromOne(prefs) && p in prefs
    ensures 0 < p.rank <= |prefs| == |InRankOrder(prefs)|
    ensures InRankOrder(prefs)[p.rank - 1] == p.candidate
  {
    assert p in multiset(prefs);
    assert p in SortByRank(prefs);
    var i :| 0 <= i < |prefs| && SortByRank(prefs)[i] == p;
  }

  /** Distinct ranks leave only one way to sort. */
  lemma {:induction false} SortingIsDetermined(s: seq<Preference>, t: seq<Preference>)
    requires multiset(s) == multiset(t) && ConsecutiveFromOne(s)
    ensures SortByRank(s) == SortByRank(t)
  {
    var u, v := SortByRank(s), SortByRank(t);
    SortByRankSorts(t);
    SizeOfMultiset(u);
    SizeOfMultiset(v);
    SizeOfMultiset(s);
    SortedPermutation(u, v);
  }

  lemma {:induction false} HeadsAgree(u: seq<Preference>, v: seq<Preference>)
    requires multiset(u) == multiset(v) && Sorted(v) && |u| > 0 && |v| > 0
    requires forall i, j :: 0 <= i < j < |u| ==> u[i].rank < u[j].rank
    ensures u[0] == v[0]
  {
    assert u[0] in multiset(v) && v[0] in multiset(u);
    var k :| 0 <= k < |v| && v[k] == u[0];
    var l :| 0 <= l < |u| && u[l] == v[0];
    assert v[0].rank <= v[k].rank;
  }

  lemma {:induction false} TailOf(s: seq<Preference>)
    requires |s| > 0
    ensures multiset(s[1..]) == multiset(s) - multiset{s[0]} && s == [s[0]] + s[1..]
  {
    assert s == [s[0]] + s[1..];
  }

  lemma {:induction false} SortedPermutation(u: seq<Preference>, v: seq<Preference>)
    requires multiset(u) == multiset(v) && Sorted(v)
    requires forall i, j :: 0 <= i < j < |u| ==> u[i].rank < u[j].rank
    ensures u == v
  {
    SizeOfMultiset(u);
    SizeOfMultiset(v);
    if |u| > 0 {
      HeadsAgree(u, v);
      TailOf(u);
      TailOf(v);
      SortedPermutation(u[1..], v[1..]);
    }
  }

  // ---- What the validator asks for ----

  ghost predicate HasRank(prefs: seq<Preference>, r: nat) {
    exists i :: 0 <= i < |prefs| && prefs[i].rank == r
  }

  /** Every rank from 1 to the number of preferences is given. */
  ghost predicate GivesAllRanks(prefs: seq<Preference>) {
    |prefs| > 0 && forall r: nat :: 1 <= r <= |prefs| ==> HasRank(prefs, r)
  }

  lemma {:induction false} RanksOfSorted(prefs: seq<Preference>, r: nat)
    ensures HasRank(SortByRank(prefs), r) <==> HasRank(prefs, r)
  {
    var s := SortByRank(prefs);
    forall p ensures p in s <==> p in prefs {
      assert p in multiset(s) <==> p in multiset(prefs);
    }
    if HasRank(s, r) {
      var i :| 0 <= i < |s| && s[i].rank == r;
      assert s[i] in prefs;
    }
    if HasRank(prefs, r) {
      var i :| 0 <= i < |prefs| && prefs[i].rank == r;
      assert prefs[i] in s;
    }
  }

  /** In a sorted list with every rank from 1 to `n`, rank `r` cannot come before place `r - 1`, */
  lemma {:induction false} NoRankTooEarly(s: seq<Preference>, r: nat, i: nat)
    requires Sorted(s) && 1 <= r && i < |s| && s[i].rank == r
    requires forall q: nat :: 1 <= q <= r ==> HasRank(s, q)
    ensures i >= r - 1
  {
    if r > 1 {
      assert HasRank(s, r - 1);
      var j :| 0 <= j < |s| && s[j].rank == r - 1;
      NoRankTooEarly(s, r - 1, j);
    }
  }

  /** nor after it. */
  lemma {:induction false} NoRankTooLate(s: seq<Preference>, r: nat, i: nat)
    requires Sorted(s) && 1 <= r <= |s| && i < |s| && s[i].rank == r
    requires forall q: nat :: r <= q <= |s| ==> HasRank(s, q)
    ensures i <= r - 1
    decreases |s| - r
  {
    if r < |s| {
      assert HasRank(s, r + 1);
      var j :| 0 <= j < |s| && s[j].rank == r + 1;
      NoRankTooLate(s, r + 1, j);
    }
  }

  /** The ranks sort to 1, 2, ..., n exactly when each of these is given. */
  lemma {:induction false} ConsecutiveMeansAllRanks(prefs: seq<Preference>)
    ensures ConsecutiveFromOne(prefs) <==> GivesAllRanks(prefs)
  {
    var s, n := SortByRank(prefs), |prefs|;
    SizeOfMultiset(prefs);
    SizeOfMultiset(s);
    SortByRankSorts(prefs);
    if ConsecutiveFromOne(prefs) {
      forall r: nat | 1 <= r <= n ensures HasRank(prefs, r) {
        assert s[r - 1].rank == r;
        RanksOfSorted(prefs, r);
      }
    } else if GivesAllRanks(prefs) {
      forall r: nat | 1 <= r <= n ensures HasRank(s, r) {
        RanksOfSorted(prefs, r);
      }
      forall k | 0 <= k < n ensures s[k].rank == k + 1 {
        assert HasRank(s, k + 1);
        var i :| 0 <= i < |s| && s[i].rank == k + 1;
        NoRankTooEarly(s, k + 1, i);
        NoRankTooLate(s, k + 1, i);
      }
    }
  }

  // ---- Decimal numbers ----

  /** The number a string of digits stands for. */
  function Value(s: string): nat
    requires forall i :: 0 <= i < |s| ==> '0' <= s[i] <= '9'
  {
    if |s| == 0 then 0 else Value(s[..|s| - 1]) * 10 + (s[|s| - 1] as nat - '0' as nat)
  }

  /** A rank is written in decimal, without leading zeros. */
  lemma {:induction false} DigitsAreDecimal(n: nat)
    ensures |Digits(n)| > 0 && forall i :: 0 <= i < |Digits(n)| ==> '0' <= Digits(n)[i] <= '9'
    ensures Value(Digits(n)) == n
    ensures n > 0 ==> Digits(n)[0] != '0'
  {
    if n >= 10 {
      DigitsAreDecimal(n / 10);
      assert Digits(n)[..|Digits(n)| - 1] == Digits(n / 10);
    } else {
      assert Digits(n)[..0] == [];
    }
  }

  // ---- Grouping rows into ballots ----

  /** The preferences of the rows whose token is `base`, in row order. */
  function Group(rows: seq<RankedRow>, base: Token): seq<Preference> {
    if |rows| == 0 then []
    else Group(rows[..|rows| - 1], base)
         + if BaseOf(rows[|rows| - 1]) == base then [rows[|rows| - 1].pref] else []
  }

  /** The tokens of the rows, in order of first appearance. */
  function Bases(rows: seq<RankedRow>): seq<Token> {
    if |rows| == 0 then []
    else
      var front, base := Bases(rows[..|rows| - 1]), BaseOf(rows[|rows| - 1]);
      if base in front then front else front + [base]
  }

  function BallotsOf(rows: seq<RankedRow>, bases: seq<Token>): seq<Ballot> {
    if |bases| == 0 then []
    else BallotsOf(rows, bases[..|bases| - 1]) + [InRankOrder(Group(rows, bases[|bases| - 1]))]
  }

  /** The dictionary `ballot_buffer`, with its keys in insertion order. */
  ghost predicate IsBuffer(bases: seq<Token>, group: Token -> seq<Preference>,
                           keys: seq<Token>, buffer: map<Token, seq<Preference>>) {
    && keys == bases
    && (forall b :: b in buffer <==> b in keys)
    && (forall b :: b in buffer ==> buffer[b] == group(b))
    && (forall b :: b !in buffer ==> group(b) == [])
  }

  ghost function Groups(rows: seq<RankedRow>): Token -> seq<Preference> {
    base => Group(rows, base)
  }

  lemma {:induction false} OneMoreRow(rows: seq<RankedRow>, i: nat, base: Token)
    requires i < |rows| && base == BaseOf(rows[i])
    ensures Bases(rows[..i + 1]) == if base in Bases(rows[..i]) then Bases(rows[..i]) else Bases(rows[..i]) + [base]
    ensures Groups(rows[..i + 1])(base) == Groups(rows[..i])(base) + [rows[i].pref]
    ensures forall b :: b != base ==> Groups(rows[..i + 1])(b) == Groups(rows[..i])(b)
  {
    assert rows[..i + 1][..i] == rows[..i];
  }

  lemma {:induction false} BufferGrows(bases: seq<Token>, group: Token -> seq<Preference>, keys: seq<Token>,
                                       buffer: map<Token, seq<Preference>>,
                    base: Token, p: Preference, group': Token -> seq<Preference>)
    requires IsBuffer(bases, group, keys, buffer)
    requires group'(base) == group(base) + [p] && forall b :: b != base ==> group'(b) == group(b)
    ensures base in buffer ==> IsBuffer(bases, group', keys, buffer[base := buffer[base] + [p]])
    ensures base !in buffer ==> IsBuffer(bases + [base], group', keys + [base], buffer[base := [p]])
  {
  }

  method FillBuffer(rows: seq<RankedRow>) returns (keys: seq<Token>, buffer: map<Token, seq<Preference>>)
    ensures IsBuffer(Bases(rows), Groups(rows), keys, buffer)
  {
    keys, buffer := [], map[];
    for i := 0 to |rows|
      invariant IsBuffer(Bases(rows[..i]), Groups(rows[..i]), keys, buffer)
    {
      var base := BaseOf(rows[i]);
      OneMoreRow(rows, i, base);
      BufferGrows(Bases(rows[..i]), Groups(rows[..i]), keys, buffer, base, rows[i].pref, Groups(rows[..i + 1]));
      if base in buffer {
        buffer := buffer[base := buffer[base] + [rows[i].pref]];
      } else {
        keys, buffer := keys + [base], buffer[base := [rows[i].pref]];
      }
    }
    assert rows[..|rows|] == rows;
  }

  lemma {:induction false} BallotsNext(rows: seq<RankedRow>, keys: seq<Token>, i: nat)
    requires i < |keys|
    ensures BallotsOf(rows, keys[..i + 1]) == BallotsOf(rows, keys[..i]) + [InRankOrder(Group(rows, keys[i]))]
  {
    assert keys[..i + 1][..i] == keys[..i];
  }

  /** `_votes_to_ballots`: fill a buffer per token, then sort each group by rank. */
  method VotesToBallots(rows: seq<RankedRow>) returns (ballots: seq<Ballot>)
    ensures ballots == BallotsOf(rows, Bases(rows))
  {
    var keys, buffer := FillBuffer(rows);
    ballots := [];
    for i := 0 to |keys|
      invariant ballots == BallotsOf(rows, keys[..i])
    {
      BallotsNext(rows, keys, i);
      assert keys[i] in buffer && buffer[keys[i]] == Groups(rows)(keys[i]);
      ballots := ballots + [InRankOrder(buffer[keys[i]])];
    }
    assert keys[..|keys|] == keys;
  }

  // ---- What the rows of cast ballots are grouped into ----

  /** An accepted ranked ballot: the token it was cast with and its preferences as listed. */
  datatype CastBallot = CastBallot(token: Token, prefs: seq<Preference>)

  /** The rows one ballot is written as. */
  function RowsOf(c: CastBallot): seq<RankedRow> {
    RowsFor(c.token, c.prefs)
  }

  function RowsFor(token: Token, prefs: seq<Preference>): seq<RankedRow> {
    if |prefs| == 0 then []
    else RowsFor(token, prefs[..|prefs| - 1])
         + [RankedRow(Marked(token.text, prefs[|prefs| - 1].rank), prefs[|prefs| - 1])]
  }

  function AllRows(cast: seq<CastBallot>): seq<RankedRow> {
    if |cast| == 0 then [] else AllRows(cast[..|cast| - 1]) + RowsOf(cast[|cast| - 1])
  }

  function AllBallots(cast: seq<CastBallot>): seq<Ballot> {
    if |cast| == 0 then [] else AllBallots(cast[..|cast| - 1]) + [InRankOrder(cast[|cast| - 1].prefs)]
  }

  function Tokens(cast: seq<CastBallot>): (r: seq<Token>)
    ensures |r| == |cast| && forall i :: 0 <= i < |cast| ==> r[i] == cast[i].token
  {
    if |cast| == 0 then [] else Tokens(cast[..|cast| - 1]) + [cast[|cast| - 1].token]
  }

  /** Distinct clean tokens, valid ranks. */
  ghost predicate WellCast(cast: seq<CastBallot>) {
    && Distinct(Tokens(cast))
    && forall c :: c in cast ==> Clean(c.token.text) && ConsecutiveFromOne(c.prefs)
  }

  lemma {:induction false} GroupConcat(a: seq<RankedRow>, b: seq<RankedRow>, base: Token)
    ensures Group(a + b, base) == Group(a, base) + Group(b, base)
  {
    if |b| == 0 {
      assert a + b == a;
    } else {
      assert (a + b)[..|a + b| - 1] == a + b[..|b| - 1];
      GroupConcat(a, b[..|b| - 1], base);
    }
  }

  lemma {:induction false} GroupOfOne(row: RankedRow, base: Token)
    ensures Group([row], base) == if BaseOf(row) == base then [row.pref] else []
  {
    assert [row][..0] == [];
  }

  lemma {:induction false} BaseOfWritten(token: Token, p: Preference)
    requires Clean(token.text)
    ensures BaseOf(RankedRow(Marked(token.text, p.rank), p)) == token
  {
    SplitUndoesMark(token.text, Digits(p.rank));
  }

  /** Rows that all have the token and hold these preferences. */
  ghost predicate HoldBallot(rows: seq<RankedRow>, token: Token, prefs: seq<Preference>) {
    |rows| == |prefs| && forall i :: 0 <= i < |rows| ==> BaseOf(rows[i]) == token && rows[i].pref == prefs[i]
  }

  lemma {:induction false} GroupLast(rows: seq<RankedRow>, row: RankedRow, base: Token)
    ensures BaseOf(row) == base ==> Group(rows + [row], base) == Group(rows, base) + [row.pref]
    ensures BaseOf(row) != base ==> Group(rows + [row], base) == Group(rows, base)
  {
    assert (rows + [row])[..|rows|] == rows;
  }

  lemma {:induction false} GroupOfRows(rows: seq<RankedRow>, token: Token, prefs: seq<Preference>)
    requires HoldBallot(rows, token, prefs)
    ensures Group(rows, token) == prefs
  {
    if |rows| > 0 {
      var front, last := rows[..|rows| - 1], rows[|rows| - 1];
      GroupOfRows(front, token, prefs[..|front|]);
      GroupLast(front, last, token);
      assert rows == front + [last] && prefs == prefs[..|front|] + [last.pref];
    }
  }

  lemma {:induction false} NoGroupOfRows(rows: seq<RankedRow>, token: Token, prefs: seq<Preference>, base: Token)
    requires HoldBallot(rows, token, prefs) && base != token
    ensures Group(rows, base) == []
  {
    if |rows| > 0 {
      var front, last := rows[..|rows| - 1], rows[|rows| - 1];
      NoGroupOfRows(front, token, prefs[..|front|], base);
      GroupLast(front, last, base);
      assert rows == front + [last];
    }
  }

  lemma {:induction false} RowsForAre(token: Token, prefs: seq<Preference>)
    ensures |RowsFor(token, prefs)| == |prefs|
    ensures forall i :: 0 <= i < |prefs| ==>
      RowsFor(token, prefs)[i] == RankedRow(Marked(token.text, prefs[i].rank), prefs[i])
  {
    if |prefs| > 0 {
      RowsForAre(token, prefs[..|prefs| - 1]);
    }
  }

  lemma {:induction false} GroupOfBallot(token: Token, prefs: seq<Preference>, base: Token)
    requires Clean(token.text)
    ensures Group(RowsFor(token, prefs), base) == if base == token then prefs else []
  {
    var rows := RowsFor(token, prefs);
    RowsForAre(token, prefs);
    forall i | 0 <= i < |prefs| ensures BaseOf(rows[i]) == token {
      BaseOfWritten(token, prefs[i]);
    }
    if base == token {
      GroupOfRows(rows, token, prefs);
    } else {
      NoGroupOfRows(rows, token, prefs, base);
    }
  }

  lemma {:induction false} WellCastFront(cast: seq<CastBallot>)
    requires WellCast(cast) && |cast| > 0
    ensures WellCast(cast[..|cast| - 1])
    ensures forall c :: c in cast[..|cast| - 1] ==> c.token != cast[|cast| - 1].token
  {
    var n := |cast| - 1;
    assert Tokens(cast)[n] == cast[n].token;
    forall i | 0 <= i < n ensures cast[i].token != cast[n].token {
      assert Tokens(cast)[i] == cast[i].token;
    }
  }

  lemma {:induction false} GroupOfStranger(cast: seq<CastBallot>, base: Token)
    requires WellCast(cast) && forall c :: c in cast ==> c.token != base
    ensures Group(AllRows(cast), base) == []
  {
    if |cast| > 0 {
      var n := |cast| - 1;
      WellCastFront(cast);
      GroupOfStranger(cast[..n], base);
      GroupConcat(AllRows(cast[..n]), RowsOf(cast[n]), base);
      GroupOfBallot(cast[n].token, cast[n].prefs, base);
    }
  }

  lemma {:induction false} GroupOfCast(cast: seq<CastBallot>, c: CastBallot)
    requires WellCast(cast) && c in cast
    ensures Group(AllRows(cast), c.token) == c.prefs
  {
    var n := |cast| - 1;
    WellCastFront(cast);
    GroupConcat(AllRows(cast[..n]), RowsOf(cast[n]), c.token);
    GroupOfBallot(cast[n].token, cast[n].prefs, c.token);
    if c == cast[n] {
      GroupOfStranger(cast[..n], c.token);
    } else {
      assert c in cast[..n];
      GroupOfCast(cast[..n], c);
    }
  }

  // ---- Row order does not matter ----

  /** How many preferences of a group a row contributes. */
  function Only(row: RankedRow, base: Token): multiset<Preference> {
    if BaseOf(row) == base then multiset{row.pref} else multiset{}
  }

  lemma {:induction false} GroupRemove(rows: seq<RankedRow>, i: nat, base: Token)
    requires i < |rows|
    ensures multiset(Group(rows, base)) == multiset(Group(rows[..i] + rows[i + 1..], base)) + Only(rows[i], base)
  {
    assert rows == rows[..i] + [rows[i]] + rows[i + 1..];
    GroupInsert(rows[..i], rows[i], rows[i + 1..], base);
  }

  lemma {:induction false} GroupInsert(a: seq<RankedRow>, row: RankedRow, b: seq<RankedRow>, base: Token)
    ensures multiset(Group(a + [row] + b, base)) == multiset(Group(a + b, base)) + Only(row, base)
  {
    GroupConcat(a + [row], b, base);
    GroupConcat(a, [row], base);
    GroupConcat(a, b, base);
    GroupOfOne(row, base);
  }

  /** In a permutation the last element is somewhere, and the rest permutes the rest. */
  lemma {:induction false} WhereLast<T>(a: seq<T>, b: seq<T>) returns (i: nat)
    requires |a| > 0 && multiset(a) == multiset(b)
    ensures i < |b| && b[i] == a[|a| - 1]
    ensures multiset(a[..|a| - 1]) == multiset(b[..i] + b[i + 1..])
  {
    var n := |a| - 1;
    assert a == a[..n] + [a[n]];
    assert a[n] in multiset(b);
    i :| 0 <= i < |b| && b[i] == a[n];
    WithoutOne(b, i);
  }

  lemma {:induction false} WithoutOne<T>(b: seq<T>, i: nat)
    requires i < |b|
    ensures multiset(b[..i] + b[i + 1..]) == multiset(b) - multiset{b[i]}
  {
    assert b == b[..i] + [b[i]] + b[i + 1..];
  }

  lemma {:induction false} GroupsOfPermutation(a: seq<RankedRow>, b: seq<RankedRow>, base: Token)
    requires multiset(a) == multiset(b)
    ensures multiset(Group(a, base)) == multiset(Group(b, base))
    decreases |a|
  {
    if |a| == 0 {
      assert |multiset(b)| == |b|;
    } else {
      var n := |a| - 1;
      var i := WhereLast(a, b);
      GroupsOfPermutation(a[..n], b[..i] + b[i + 1..], base);
      GroupRemove(b, i, base);
      GroupRemove(a, n, base);
      assert a[..n] + a[n + 1..] == a[..n];
    }
  }

  lemma {:induction false} BasesAreTheTokens(rows: seq<RankedRow>, base: Token)
    ensures Distinct(Bases(rows))
    ensures base in Bases(rows) <==> Group(rows, base) != []
  {
    if |rows| > 0 {
      BasesAreTheTokens(rows[..|rows| - 1], base);
      BasesAreTheTokens(rows[..|rows| - 1], BaseOf(rows[|rows| - 1]));
    }
  }

  lemma {:induction false} DistinctSameElements(s: seq<Token>, t: seq<Token>)
    requires Distinct(s) && Distinct(t) && forall x :: x in s <==> x in t
    ensures multiset(s) == multiset(t)
  {
    forall x ensures multiset(s)[x] == multiset(t)[x] {
      DistinctCount(s, x);
      DistinctCount(t, x);
    }
  }

  lemma {:induction false} DistinctCount(s: seq<Token>, x: Token)
    requires Distinct(s)
    ensures multiset(s)[x] == if x in s then 1 else 0
  {
    if |s| > 0 {
      var front, last := s[..|s| - 1], s[|s| - 1];
      assert s == front + [last];
      DistinctCount(front, x);
    }
  }

  lemma {:induction false} BallotsConcat(rows: seq<RankedRow>, s: seq<Token>, t: seq<Token>)
    ensures BallotsOf(rows, s + t) == BallotsOf(rows, s) + BallotsOf(rows, t)
  {
    if |t| == 0 {
      assert s + t == s;
    } else {
      assert (s + t)[..|s + t| - 1] == s + t[..|t| - 1];
      BallotsConcat(rows, s, t[..|t| - 1]);
    }
  }

  lemma {:induction false} BallotsRemove(rows: seq<RankedRow>, s: seq<Token>, i: nat)
    requires i < |s|
    ensures multiset(BallotsOf(rows, s))
            == multiset(BallotsOf(rows, s[..i] + s[i + 1..])) + multiset{InRankOrder(Group(rows, s[i]))}
  {
    assert s == s[..i] + ([s[i]] + s[i + 1..]);
    BallotsConcat(rows, s[..i], [s[i]] + s[i + 1..]);
    BallotsConcat(rows, [s[i]], s[i + 1..]);
    BallotsConcat(rows, s[..i], s[i + 1..]);
    OneBallot(rows, s[i]);
  }

  lemma {:induction false} OneBallot(rows: seq<RankedRow>, base: Token)
    ensures BallotsOf(rows, [base]) == [InRankOrder(Group(rows, base))]
  {
    assert [base][..0] == [];
  }

  lemma {:induction false} BallotsOfPermutedTokens(rows: seq<RankedRow>, s: seq<Token>, t: seq<Token>)
    requires multiset(s) == multiset(t)
    ensures multiset(BallotsOf(rows, s)) == multiset(BallotsOf(rows, t))
    decreases |s|
  {
    if |s| == 0 {
      assert |multiset(t)| == |t|;
    } else {
      var n := |s| - 1;
      var i := WhereLast(s, t);
      BallotsOfPermutedTokens(rows, s[..n], t[..i] + t[i + 1..]);
      BallotsRemove(rows, t, i);
      BallotsRemove(rows, s, n);
      assert s[..n] + s[n + 1..] == s[..n];
    }
  }

  lemma {:induction false} BallotsOfTokens(rows: seq<RankedRow>, cast: seq<CastBallot>)
    requires forall c :: c in cast ==> InRankOrder(Group(rows, c.token)) == InRankOrder(c.prefs)
    ensures BallotsOf(rows, Tokens(cast)) == AllBallots(cast)
  {
    if |cast| > 0 {
      var n := |cast| - 1;
      BallotsOfTokens(rows, cast[..n]);
      assert Tokens(cast)[..n] == Tokens(cast[..n]);
    }
  }

  /** Whatever order the rows come back in, they are regrouped into exactly the ballots cast, each
      with its candidates in rank order. */
  lemma {:induction false} RowsRegroupIntoBallots(cast: seq<CastBallot>, rows: seq<RankedRow>)
    requires WellCast(cast) && multiset(rows) == multiset(AllRows(cast))
    ensures multiset(BallotsOf(rows, Bases(rows))) == multiset(AllBallots(cast))
  {
    forall c | c in cast ensures InRankOrder(Group(rows, c.token)) == InRankOrder(c.prefs) {
      GroupsOfPermutation(AllRows(cast), rows, c.token);
      GroupOfCast(cast, c);
      SortingIsDetermined(c.prefs, Group(rows, c.token));
    }
    BallotsOfTokens(rows, cast);
    forall base ensures base in Bases(rows) <==> base in Tokens(cast) {
      BaseIsToken(cast, rows, base);
    }
    BasesAreTheTokens(rows, Token(""));
    DistinctSameElements(Bases(rows), Tokens(cast));
    BallotsOfPermutedTokens(rows, Bases(rows), Tokens(cast));
  }

  lemma {:induction false} BaseIsToken(cast: seq<CastBallot>, rows: seq<RankedRow>, base: Token)
    requires WellCast(cast) && multiset(rows) == multiset(AllRows(cast))
    ensures base in Bases(rows) <==> base in Tokens(cast)
  {
    BasesAreTheTokens(rows, base);
    GroupsOfPermutation(AllRows(cast), rows, base);
    SizeOfMultiset(Group(rows, base));
    if base in Tokens(cast) {
      var i :| 0 <= i < |cast| && Tokens(cast)[i] == base;
      GroupOfCast(cast, cast[i]);
      SizeOfMultiset(cast[i].prefs);
    } else {
      forall c | c in cast ensures c.token != base {
        var i :| 0 <= i < |cast| && cast[i] == c;
        assert Tokens(cast)[i] == c.token;
      }
      GroupOfStranger(cast, base);
    }
  }
}
