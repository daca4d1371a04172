/** From tallies to seats and an overall winner: `_build_constituency_results`, `_results_fptp`,
    `_results_ams` and the majority loops of backend/app/service/result_service.py. */
module ElectionResults {
  import opened Ballots
  import opened Dictionaries
  import opened Records
  import opened AdditionalMemberSystem

  datatype ConstituencyResult = ConstituencyResult(constituency: Id, winner: Option<Id>, winnerParty: Option<Id>,
                                                   total: nat)

  datatype ElectionResult = ElectionResult(totalVotes: nat, totalSeats: nat, threshold: nat,
                                           constituencies: seq<ConstituencyResult>, seats: map<Id, nat>,
                                           winner: Option<Id>)

  // ---- Grouping tallies by constituency ----

  /** The tallies of one constituency, in the order given. */
  function Here(tallies: seq<Tally>, constituency: Id): seq<Tally> {
    if |tallies| == 0 then []
    else Here(tallies[..|tallies| - 1], constituency)
         + if tallies[|tallies| - 1].key.constituency == Some(constituency) then [tallies[|tallies| - 1]] else []
  }

  lemma {:induction false} HereIs(tallies: seq<Tally>, constituency: Id)
    ensures forall t :: t in Here(tallies, constituency) <==> t in tallies && t.key.constituency == Some(constituency)
  {
    if |tallies| > 0 {
      HereIs(tallies[..|tallies| - 1], constituency);
      assert tallies == tallies[..|tallies| - 1] + [tallies[|tallies| - 1]];
    }
  }

  /** Each tally of the constituency is there as often as it is given. */
  lemma {:induction false} HereAsOften(tallies: seq<Tally>, constituency: Id, t: Tally)
    ensures multiset(Here(tallies, constituency))[t]
            == if t.key.constituency == Some(constituency) then multiset(tallies)[t] else 0
  {
    if |tallies| > 0 {
      HereAsOften(tallies[..|tallies| - 1], constituency, t);
      assert tallies == tallies[..|tallies| - 1] + [tallies[|tallies| - 1]];
    }
  }

  ghost function HereIn(tallies: seq<Tally>): Id -> seq<Tally> {
    c => Here(tallies, c)
  }

  /** The dictionary `by_constituency`, with its keys in insertion order. */
  ghost predicate IsGrouping(here: Id -> seq<Tally>, order: seq<Id>, groups: map<Id, seq<Tally>>) {
    && Distinct(order)
    && (forall c :: c in groups <==> c in order)
    && (forall c :: c in groups ==> groups[c] == here(c) && groups[c] != [])
    && (forall c :: c !in groups ==> here(c) == [])
  }

  lemma {:induction false} OneMoreTally(tallies: seq<Tally>, i: nat)
    requires i < |tallies|
    ensures forall c :: HereIn(tallies[..i + 1])(c)
                        == HereIn(tallies[..i])(c) + if tallies[i].key.constituency == Some(c) then [tallies[i]] else []
  {
    assert tallies[..i + 1][..i] == tallies[..i];
  }

  lemma {:induction false} GroupingGrows(here: Id -> seq<Tally>, order: seq<Id>, groups: map<Id, seq<Tally>>, c: Id,
                                         t: Tally, here': Id -> seq<Tally>)
    requires IsGrouping(here, order, groups)
    requires here'(c) == here(c) + [t] && forall d :: d != c ==> here'(d) == here(d)
    ensures c in groups ==> IsGrouping(here', order, groups[c := groups[c] + [t]])
    ensures c !in groups ==> IsGrouping(here', order + [c], groups[c := [t]])
  {
  }

  method GroupByConstituency(tallies: seq<Tally>) returns (order: seq<Id>, groups: map<Id, seq<Tally>>)
    ensures IsGrouping(HereIn(tallies), order, groups)
  {
    order, groups := [], map[];
    for i := 0 to |tallies|
      invariant IsGrouping(HereIn(tallies[..i]), order, groups)
    {
      var t := tallies[i];
      OneMoreTally(tallies, i);
      if t.key.constituency.Some? {
        var c := t.key.constituency.value;
        GroupingGrows(HereIn(tallies[..i]), order, groups, c, t, HereIn(tallies[..i + 1]));
        if c in groups {
          groups := groups[c := groups[c] + [t]];
        } else {
          order, groups := order + [c], groups[c := [t]];
        }
      }
    }
    assert tallies[..|tallies|] == tallies;
  }

  // ---- One constituency ----

  function SumCounts(ts: seq<Tally>): nat {
    if |ts| == 0 then 0 else SumCounts(ts[..|ts| - 1]) + ts[|ts| - 1].count
  }

  /** `max(tally_dtos, key=...)` and the sum of the counts. */
  method CountConstituency(ts: seq<Tally>) returns (total: nat, best: Tally)
    requires |ts| > 0
    ensures total == SumCounts(ts)
    ensures best in ts && forall t :: t in ts ==> t.count <= best.count
  {
    total, best := 0, ts[0];
    for i := 0 to |ts|
      invariant total == SumCounts(ts[..i])
      invariant best in ts && forall k :: 0 <= k < i ==> ts[k].count <= best.count
    {
      assert ts[..i + 1][..i] == ts[..i];
      total := total + ts[i].count;
      if ts[i].count > best.count {
        best := ts[i];
      }
    }
    assert ts[..|ts|] == ts;
  }

  function PartyOf(parties: map<Id, Id>, candidate: Option<Id>): Option<Id> {
    if candidate.Some? && candidate.value in parties then Some(parties[candidate.value]) else None
  }

  /** The party of a result is the one its winner stands for, if any. */
  predicate NamesItsParty(r: ConstituencyResult, parties: map<Id, Id>) {
    match r.winnerParty
    case Some(p) => r.winner.Some? && r.winner.value in parties && parties[r.winner.value] == p
    case None => r.winner.None? || r.winner.value !in parties
  }

  /** The results whose winner stands for the party. */
  function Wins(results: seq<ConstituencyResult>, parties: map<Id, Id>, party: Id): set<nat> {
    set i: nat | i < |results| && results[i].winner.Some?
                 && results[i].winner.value in parties && parties[results[i].winner.value] == party
  }

  lemma {:induction false} SeatsAreWins(results: seq<ConstituencyResult>, parties: map<Id, Id>, party: Id)
    requires forall i :: 0 <= i < |results| ==> NamesItsParty(results[i], parties)
    ensures SeatsWon(results, party) == |Wins(results, parties, party)|
  {
    if |results| == 0 {
      assert Wins(results, parties, party) == {};
    } else {
      var n := |results| - 1;
      SeatsAreWins(results[..n], parties, party);
      var before := Wins(results[..n], parties, party);
      if results[n].winnerParty == Some(party) {
        assert Wins(results, parties, party) == before + {n};
      } else {
        assert Wins(results, parties, party) == before;
      }
    }
  }

  /** The result names a candidate nobody in the constituency has more votes than. */
  ghost predicate IsResult(r: ConstituencyResult, tallies: seq<Tally>, parties: map<Id, Id>) {
    && r.total == SumCounts(Here(tallies, r.constituency))
    && NamesItsParty(r, parties)
    && exists best :: best in Here(tallies, r.constituency) && r.winner == best.key.candidate
                      && forall t :: t in Here(tallies, r.constituency) ==> t.count <= best.count
  }

  /** Seats won by a party: constituencies whose winner belongs to it. */
  function SeatsWon(results: seq<ConstituencyResult>, party: Id): nat {
    if |results| == 0 then 0
    else SeatsWon(results[..|results| - 1], party) + if results[|results| - 1].winnerParty == Some(party) then 1 else 0
  }

  function TotalVotes(results: seq<ConstituencyResult>): nat {
    if |results| == 0 then 0 else TotalVotes(results[..|results| - 1]) + results[|results| - 1].total
  }

  method OneResult(ghost tallies: seq<Tally>, c: Id, ts: seq<Tally>, parties: map<Id, Id>)
    returns (r: ConstituencyResult)
    requires ts == Here(tallies, c) && ts != []
    ensures r.constituency == c && IsResult(r, tallies, parties)
  {
    var total, best := CountConstituency(ts);
    r := ConstituencyResult(c, best.key.candidate, PartyOf(parties, best.key.candidate), total);
    assert best in Here(tallies, c);
  }

  /** The dictionary `seat_allocation` for the results so far. */
  ghost predicate IsSeatTable(results: seq<ConstituencyResult>, keys: seq<Id>, seats: map<Id, nat>) {
    && Distinct(keys)
    && (forall p :: p in seats <==> p in keys)
    && SumOver(keys, seats) <= |results|
    && forall p :: At(seats, p) == SeatsWon(results, p)
  }

  method AddSeat(ghost results: seq<ConstituencyResult>, r: ConstituencyResult, keys: seq<Id>, seats: map<Id, nat>)
    returns (keys': seq<Id>, seats': map<Id, nat>)
    requires IsSeatTable(results, keys, seats)
    ensures IsSeatTable(results + [r], keys', seats')
  {
    keys', seats' := keys, seats;
    assert (results + [r])[..|results|] == results;
    if r.winnerParty.Some? {
      keys', seats' := AddOne(keys, seats, r.winnerParty.value);
    }
  }

  /** The results are those of the constituencies in `order`. */
  ghost predicate AreResults(results: seq<ConstituencyResult>, order: seq<Id>, tallies: seq<Tally>,
                             parties: map<Id, Id>) {
    && |results| == |order|
    && forall i :: 0 <= i < |results| ==> results[i].constituency == order[i] && IsResult(results[i], tallies, parties)
  }

  /** `_build_constituency_results`. */
  method BuildConstituencyResults(tallies: seq<Tally>, order: seq<Id>, groups: map<Id, seq<Tally>>,
                                  parties: map<Id, Id>)
    returns (results: seq<ConstituencyResult>, keys: seq<Id>, seats: map<Id, nat>, totalVotes: nat)
    requires IsGrouping(HereIn(tallies), order, groups)
    ensures AreResults(results, order, tallies, parties)
    ensures IsSeatTable(results, keys, seats)
    ensures totalVotes == TotalVotes(results)
  {
    results, keys, seats, totalVotes := [], [], map[], 0;
    for i := 0 to |order|
      invariant AreResults(results, order[..i], tallies, parties)
      invariant IsSeatTable(results, keys, seats)
      invariant totalVotes == TotalVotes(results)
    {
      assert order[i] in groups && groups[order[i]] == HereIn(tallies)(order[i]);
      var r := OneResult(tallies, order[i], groups[order[i]], parties);
      keys, seats := AddSeat(results, r, keys, seats);
      ResultsGrow(results, order, i, tallies, parties, r);
      totalVotes := totalVotes + r.total;
      results := results + [r];
    }
    assert order[..|order|] == order;
  }

  lemma {:induction false} ResultsGrow(results: seq<ConstituencyResult>, order: seq<Id>, i: nat, tallies: seq<Tally>,
                                       parties: map<Id, Id>,
                    r: ConstituencyResult)
    requires i < |order| && AreResults(results, order[..i], tallies, parties)
    requires r.constituency == order[i] && IsResult(r, tallies, parties)
    ensures AreResults(results + [r], order[..i + 1], tallies, parties)
    ensures TotalVotes(results + [r]) == TotalVotes(results) + r.total
  {
    assert (results + [r])[..|results|] == results;
  }

  // ---- The overall winner ----

  lemma {:induction false} TwoSharesFit(keys: seq<Id>, m: map<Id, nat>, p: Id, q: Id)
    requires Distinct(keys) && p in keys && q in keys && p != q
    ensures At(m, p) + At(m, q) <= SumOver(keys, m)
  {
    var front, last := keys[..|keys| - 1], keys[|keys| - 1];
    assert keys == front + [last];
    if p == last {
      OneShareFits(front, m, q);
    } else if q == last {
      OneShareFits(front, m, p);
    } else {
      TwoSharesFit(front, m, p, q);
    }
  }

  lemma {:induction false} OneShareFits(keys: seq<Id>, m: map<Id, nat>, p: Id)
    requires p in keys
    ensures At(m, p) <= SumOver(keys, m)
  {
    if p != keys[|keys| - 1] {
      OneShareFits(keys[..|keys| - 1], m, p);
    }
  }

  /** The first party in dictionary order with a majority of the seats. No two parties can have
      one, so the loop finds the party whatever the order. */
  method MajorityParty(keys: seq<Id>, seats: map<Id, nat>, total: nat) returns (winner: Option<Id>)
    requires Distinct(keys) && (forall p :: p in seats <==> p in keys) && SumOver(keys, seats) <= total
    ensures forall p :: winner == Some(p) <==> At(seats, p) >= total / 2 + 1
  {
    winner := None;
    for i := 0 to |keys|
      invariant winner == None && forall k :: 0 <= k < i ==> At(seats, keys[k]) < total / 2 + 1
    {
      if seats[keys[i]] >= total / 2 + 1 {
        forall p | At(seats, p) >= total / 2 + 1 ensures p == keys[i] {
          if p != keys[i] {
            TwoSharesFit(keys, seats, p, keys[i]);
          }
        }
        return Some(keys[i]);
      }
    }
  }

  // ---- First past the post ----

  /** Exactly the constituencies with tallies are reported, each once. */
  ghost predicate ReportsEachOnce(results: seq<ConstituencyResult>, tallies: seq<Tally>) {
    && (forall i, j :: 0 <= i < j < |results| ==> results[i].constituency != results[j].constituency)
    && (forall i :: 0 <= i < |results| ==> Here(tallies, results[i].constituency) != [])
    && forall c :: Here(tallies, c) != [] ==> Reports(results, c)
  }

  ghost predicate Reports(results: seq<ConstituencyResult>, c: Id) {
    exists i :: 0 <= i < |results| && results[i].constituency == c
  }

  lemma {:induction false} GroupsReportEachOnce(results: seq<ConstituencyResult>, tallies: seq<Tally>, order: seq<Id>,
                             groups: map<Id, seq<Tally>>, parties: map<Id, Id>)
    requires IsGrouping(HereIn(tallies), order, groups) && AreResults(results, order, tallies, parties)
    ensures ReportsEachOnce(results, tallies)
  {
    forall c ensures Here(tallies, c) != [] <==> c in order {
      assert HereIn(tallies)(c) == Here(tallies, c);
    }
    forall c | c in order ensures Reports(results, c) {
      var i :| 0 <= i < |order| && order[i] == c;
      assert results[i].constituency == c;
    }
    forall i | 0 <= i < |results| ensures Here(tallies, results[i].constituency) != [] {
      assert order[i] in order;
    }
  }

  /** `_results_fptp`. */
  method ResultsFptp(tallies: seq<Tally>, parties: map<Id, Id>) returns (r: ElectionResult)
    ensures ReportsEachOnce(r.constituencies, tallies)
    ensures forall i :: 0 <= i < |r.constituencies| ==> IsResult(r.constituencies[i], tallies, parties)
    ensures r.totalSeats == |r.constituencies| && r.threshold == r.totalSeats / 2 + 1
    ensures r.totalVotes == TotalVotes(r.constituencies)
    ensures forall p :: At(r.seats, p) == |Wins(r.constituencies, parties, p)|
    ensures forall p :: r.winner == Some(p) <==> |Wins(r.constituencies, parties, p)| >= r.threshold
  {
    var order, groups := GroupByConstituency(tallies);
    var results, keys, seats, totalVotes := BuildConstituencyResults(tallies, order, groups, parties);
    var winner := MajorityParty(keys, seats, |order|);
    r := ElectionResult(totalVotes, |order|, |order| / 2 + 1, results, seats, winner);
    forall p ensures SeatsWon(results, p) == |Wins(results, parties, p)| {
      SeatsAreWins(results, parties, p);
    }
    GroupsReportEachOnce(results, tallies, order, groups, parties);
  }

  // ---- The Additional Member System ----

  /** Votes of each list: tallies with a party that are not a candidate's in a constituency. */
  function ListVotes(tallies: seq<Tally>, party: Id): nat {
    if |tallies| == 0 then 0
    else
      var t := tallies[|tallies| - 1];
      ListVotes(tallies[..|tallies| - 1], party) + if IsList(t) && t.key.party == Some(party) then t.count else 0
  }

  predicate IsLocal(t: Tally) {
    t.key.candidate.Some? && t.key.constituency.Some?
  }

  predicate IsList(t: Tally) {
    !IsLocal(t) && t.key.party.Some?
  }

  function Local(tallies: seq<Tally>): seq<Tally> {
    if |tallies| == 0 then []
    else Local(tallies[..|tallies| - 1]) + if IsLocal(tallies[|tallies| - 1]) then [tallies[|tallies| - 1]] else []
  }

  /** The candidates' tallies with a constituency, each as often as it is given. */
  lemma {:induction false} LocalAsOften(tallies: seq<Tally>, t: Tally)
    ensures multiset(Local(tallies))[t]
            == if t.key.candidate.Some? && t.key.constituency.Some? then multiset(tallies)[t] else 0
  {
    if |tallies| > 0 {
      LocalAsOften(tallies[..|tallies| - 1], t);
      assert tallies == tallies[..|tallies| - 1] + [tallies[|tallies| - 1]];
    }
  }

  /** A tally counts for its party unless it is a candidate's in a constituency. */
  lemma {:induction false} ListVotesOfOne(t: Tally, party: Id)
    ensures ListVotes([t], party)
            == if (t.key.candidate.None? || t.key.constituency.None?) && t.key.party == Some(party) then t.count else 0
  {
    assert [t][..0] == [];
    assert ListVotes([], party) == 0;
  }

  lemma {:induction false} ListVotesAddUp(a: seq<Tally>, b: seq<Tally>, party: Id)
    ensures ListVotes(a + b, party) == ListVotes(a, party) + ListVotes(b, party)
  {
    if |b| == 0 {
      assert a + b == a;
    } else {
      assert (a + b)[..|a + b| - 1] == a + b[..|b| - 1];
      ListVotesAddUp(a, b[..|b| - 1], party);
    }
  }

  /** The votes of each list, for the parties in `lists`. */
  function VotesPerList(tallies: seq<Tally>, lists: seq<Id>): map<Id, nat> {
    map p | p in lists :: ListVotes(tallies, p)
  }

  lemma {:induction false} SumOfSame(keys: seq<Id>, m: map<Id, nat>, m': map<Id, nat>)
    requires forall k :: k in keys ==> At(m, k) == At(m', k)
    ensures SumOver(keys, m) == SumOver(keys, m')
  {
    if |keys| > 0 {
      SumOfSame(keys[..|keys| - 1], m, m');
    }
  }

  lemma {:induction false} OneMoreListTally(tallies: seq<Tally>, lists: seq<Id>)
    requires |tallies| > 0 && Distinct(lists)
    requires IsList(tallies[|tallies| - 1]) ==> tallies[|tallies| - 1].key.party.value in lists
    ensures var n := |tallies| - 1;
      SumOver(lists, VotesPerList(tallies, lists))
      == SumOver(lists, VotesPerList(tallies[..n], lists)) + if IsList(tallies[n]) then tallies[n].count else 0
  {
    var n := |tallies| - 1;
    var before, after := VotesPerList(tallies[..n], lists), VotesPerList(tallies, lists);
    if IsList(tallies[n]) {
      var p := tallies[n].key.party.value;
      AtPlus(lists, before, p, At(before, p) + tallies[n].count);
      SumOfSame(lists, after, before[p := At(before, p) + tallies[n].count]);
    } else {
      SumOfSame(lists, after, before);
    }
  }

  lemma {:induction false} SumOfLocal(tallies: seq<Tally>)
    requires |tallies| > 0
    ensures var n := |tallies| - 1;
      SumCounts(Local(tallies)) == SumCounts(Local(tallies[..n])) + if IsLocal(tallies[n]) then tallies[n].count else 0
  {
    var n := |tallies| - 1;
    var front := Local(tallies[..n]);
    assert (front + [tallies[n]])[..|front|] == front && front + [] == front;
  }

  lemma {:induction false} ListsTakeTheRest(tallies: seq<Tally>, lists: seq<Id>)
    requires Distinct(lists)
    requires forall t :: t in tallies ==> (t.key.candidate.Some? && t.key.constituency.Some?)
                                          || (t.key.party.Some? && t.key.party.value in lists)
    ensures SumCounts(Local(tallies)) + SumOver(lists, VotesPerList(tallies, lists)) == SumCounts(tallies)
  {
    if |tallies| == 0 {
      NoVotesPerList(lists);
    } else {
      ListsTakeTheRest(tallies[..|tallies| - 1], lists);
      SumOfLocal(tallies);
      OneMoreListTally(tallies, lists);
    }
  }

  lemma {:induction false} NoVotesPerList(lists: seq<Id>)
    ensures SumOver(lists, VotesPerList([], lists)) == 0
  {
    SumOfSame(lists, VotesPerList([], lists), map[]);
    NothingYet(lists);
  }

  /** Where every tally is a constituency candidate's or names a party, none of the votes is lost. */
  lemma {:induction false} SeparationLosesNothing(tallies: seq<Tally>, lists: seq<Id>, votes: map<Id, nat>)
    requires forall t :: t in tallies ==>
      (t.key.candidate.Some? && t.key.constituency.Some?) || t.key.party.Some?
    requires Distinct(lists) && (forall p :: p in lists <==> HasList(tallies, p))
    requires forall p :: At(votes, p) == ListVotes(tallies, p)
    ensures SumCounts(Local(tallies)) + SumOver(lists, votes) == SumCounts(tallies)
  {
    forall t | t in tallies && !IsLocal(t) ensures t.key.party.Some? && t.key.party.value in lists {
      assert HasList(tallies, t.key.party.value);
    }
    ListsTakeTheRest(tallies, lists);
    SumOfSame(lists, votes, VotesPerList(tallies, lists));
  }

  /** The party has a list tally. */
  ghost predicate HasList(tallies: seq<Tally>, p: Id) {
    exists t :: t in tallies && IsList(t) && t.key.party == Some(p)
  }

  lemma {:induction false} HasListNext(tallies: seq<Tally>, i: nat)
    requires i < |tallies|
    ensures forall p :: HasList(tallies[..i + 1], p)
                        <==> HasList(tallies[..i], p) || (IsList(tallies[i]) && tallies[i].key.party == Some(p))
  {
    assert tallies[..i + 1] == tallies[..i] + [tallies[i]];
    forall p | HasList(tallies[..i], p) ensures HasList(tallies[..i + 1], p) {
      var t :| t in tallies[..i] && IsList(t) && t.key.party == Some(p);
      assert t in tallies[..i + 1];
    }
    forall p | IsList(tallies[i]) && tallies[i].key.party == Some(p) ensures HasList(tallies[..i + 1], p) {
      assert tallies[i] in tallies[..i + 1];
    }
  }

  /** The first loop: candidates' tallies on one side, votes per list on the other. */
  method Separate(tallies: seq<Tally>) returns (local: seq<Tally>, lists: seq<Id>, votes: map<Id, nat>)
    ensures local == Local(tallies)
    ensures Distinct(lists) && forall p :: p in votes <==> p in lists
    ensures forall p :: p in lists <==> HasList(tallies, p)
    ensures forall p :: At(votes, p) == ListVotes(tallies, p)
  {
    local, lists, votes := [], [], map[];
    for i := 0 to |tallies|
      invariant local == Local(tallies[..i])
      invariant Distinct(lists) && forall p :: p in votes <==> p in lists
      invariant forall p :: p in lists <==> HasList(tallies[..i], p)
      invariant forall p :: At(votes, p) == ListVotes(tallies[..i], p)
    {
      HasListNext(tallies, i);
      assert tallies[..i + 1][..i] == tallies[..i];
      var t := tallies[i];
      if IsLocal(t) {
        local := local + [t];
      } else if t.key.party.Some? {
        var p := t.key.party.value;
        if p !in votes {
          lists := lists + [p];
        }
        votes := votes[p := At(votes, p) + t.count];
      }
    }
    assert tallies[..|tallies|] == tallies;
  }

  lemma {:induction false} AtPlus(keys: seq<Id>, m: map<Id, nat>, p: Id, v: nat)
    requires Distinct(keys) && p in keys
    ensures SumOver(keys, m[p := v]) + At(m, p) == SumOver(keys, m) + v
  {
    var front, last := keys[..|keys| - 1], keys[|keys| - 1];
    assert keys == front + [last];
    if last == p {
      SumOverOther(front, m, p, v);
    } else {
      AtPlus(front, m, p, v);
    }
  }

  /** `combined_seats[p] += v`. */
  method AddTo(keys: seq<Id>, m: map<Id, nat>, p: Id, v: nat) returns (keys': seq<Id>, m': map<Id, nat>)
    requires Distinct(keys) && (forall q :: q in m <==> q in keys)
    ensures Distinct(keys') && (forall q :: q in m' <==> q in keys')
    ensures forall q :: At(m', q) == At(m, q) + if q == p then v else 0
    ensures SumOver(keys', m') == SumOver(keys, m) + v
  {
    keys' := keys;
    if p !in m {
      keys' := keys + [p];
      assert keys'[..|keys|] == keys;
    }
    AtPlus(keys', m, p, At(m, p) + v);
    m' := m[p := At(m, p) + v];
  }

  ghost predicate AddedUpTo(m: map<Id, nat>, moreKeys: seq<Id>, more: map<Id, nat>, i: nat, m': map<Id, nat>)
    requires i <= |moreKeys|
  {
    forall p :: At(m', p) == At(m, p) + if p in moreKeys[..i] then At(more, p) else 0
  }

  lemma {:induction false} AddedNext(m: map<Id, nat>, moreKeys: seq<Id>, more: map<Id, nat>, i: nat, m': map<Id, nat>,
                                     m'': map<Id, nat>)
    requires i < |moreKeys| && Distinct(moreKeys) && AddedUpTo(m, moreKeys, more, i, m')
    requires forall q :: At(m'', q) == At(m', q) + if q == moreKeys[i] then At(more, moreKeys[i]) else 0
    ensures AddedUpTo(m, moreKeys, more, i + 1, m'')
    ensures SumOver(moreKeys[..i + 1], more) == SumOver(moreKeys[..i], more) + At(more, moreKeys[i])
  {
    assert moreKeys[..i + 1] == moreKeys[..i] + [moreKeys[i]];
    assert moreKeys[..i + 1][..i] == moreKeys[..i];
  }

  lemma {:induction false} AddedAll(m: map<Id, nat>, moreKeys: seq<Id>, more: map<Id, nat>, m': map<Id, nat>)
    requires AddedUpTo(m, moreKeys, more, |moreKeys|, m') && more.Keys <= Elements(moreKeys)
    ensures forall p :: At(m', p) == At(m, p) + At(more, p)
  {
    assert moreKeys[..|moreKeys|] == moreKeys;
  }

  /** `combined_seats[pid] += s` for every entry of `more`. */
  method AddAll(keys: seq<Id>, m: map<Id, nat>, moreKeys: seq<Id>, more: map<Id, nat>)
    returns (keys': seq<Id>, m': map<Id, nat>)
    requires Distinct(keys) && (forall p :: p in m <==> p in keys)
    requires Distinct(moreKeys) && more.Keys <= Elements(moreKeys)
    ensures Distinct(keys') && (forall p :: p in m' <==> p in keys')
    ensures forall p :: At(m', p) == At(m, p) + At(more, p)
    ensures SumOver(keys', m') == SumOver(keys, m) + SumOver(moreKeys, more)
  {
    keys', m' := keys, m;
    for i := 0 to |moreKeys|
      invariant Distinct(keys') && (forall p :: p in m' <==> p in keys')
      invariant AddedUpTo(m, moreKeys, more, i, m')
      invariant SumOver(keys', m') == SumOver(keys, m) + SumOver(moreKeys[..i], more)
    {
      ghost var before := m';
      keys', m' := AddTo(keys', m', moreKeys[i], At(more, moreKeys[i]));
      AddedNext(m, moreKeys, more, i, before, m');
    }
    AddedAll(m, moreKeys, more, m');
    assert moreKeys[..|moreKeys|] == moreKeys;
  }

  /** `_results_ams`: constituency seats first past the post, as many top-up seats by D'Hondt. */
  method ResultsAms(tallies: seq<Tally>, parties: map<Id, Id>)
    returns (r: ElectionResult, lists: seq<Id>, votes: map<Id, nat>, won: map<Id, nat>, topup: map<Id, nat>)
    ensures ReportsEachOnce(r.constituencies, Local(tallies))
    ensures forall i :: 0 <= i < |r.constituencies| ==> IsResult(r.constituencies[i], Local(tallies), parties)
    ensures Distinct(lists) && (forall p :: p in lists <==> HasList(tallies, p)) && topup.Keys <= Elements(lists)
    ensures r.totalVotes == TotalVotes(r.constituencies) + SumOver(lists, votes)
    ensures forall p :: At(votes, p) == ListVotes(tallies, p)
    ensures forall p :: At(won, p) == |Wins(r.constituencies, parties, p)|
    ensures IsDHondt(lists, votes, won, topup)
    ensures SumOver(lists, topup) == if |lists| > 0 then |r.constituencies| else 0
    ensures r.totalSeats == 2 * |r.constituencies| && r.threshold == |r.constituencies| + 1
    ensures forall p :: At(r.seats, p) == SeatsOf(won, topup, p)
    ensures forall p :: r.winner == Some(p) <==> SeatsOf(won, topup, p) >= r.threshold
  {
    var local;
    local, lists, votes := Separate(tallies);
    var order, groups := GroupByConstituency(local);
    var results, keys, seats, totalVotes := BuildConstituencyResults(local, order, groups, parties);
    GroupsReportEachOnce(results, local, order, groups, parties);
    forall p ensures SeatsWon(results, p) == |Wins(results, parties, p)| {
      SeatsAreWins(results, parties, p);
    }
    won, topup := seats, map[];
    NothingYet(lists);
    if |lists| > 0 {
      topup := AllocateTopUp(lists, votes, won, |order|);
    }
    var combinedKeys, combined := AddAll(keys, won, lists, topup);
    var winner := MajorityParty(combinedKeys, combined, 2 * |order|);
    r := ElectionResult(totalVotes + SumOver(lists, votes), 2 * |order|, |order| + 1, results, combined, winner);
  }
}
