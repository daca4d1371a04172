/** Python dictionaries of counts: a map, with its keys in insertion order beside it. */
module Dictionaries {
  import opened Ballots

  /** The value under `k`, which a `defaultdict(int)` takes to be 0 when there is none. */
  function At(m: map<Id, nat>, k: Id): nat {
    if k in m then m[k] else 0
  }

  /** The sum of the values that the dictionary `m` holds under `keys`. */
  function SumOver(keys: seq<Id>, m: map<Id, nat>): nat {
    if |keys| == 0 then 0 else SumOver(keys[..|keys| - 1], m) + At(m, keys[|keys| - 1])
  }

  lemma {:induction false} SumOverOther(keys: seq<Id>, m: map<Id, nat>, c: Id, v: nat)
    requires c !in keys
    ensures SumOver(keys, m[c := v]) == SumOver(keys, m)
  {
    if |keys| > 0 {
      SumOverOther(keys[..|keys| - 1], m, c, v);
    }
  }

  lemma {:induction false} SumOverBump(keys: seq<Id>, m: map<Id, nat>, c: Id)
    requires Distinct(keys) && c in keys
    ensures SumOver(keys, m[c := At(m, c) + 1]) == SumOver(keys, m) + 1
  {
    var front, last := keys[..|keys| - 1], keys[|keys| - 1];
    assert keys == front + [last];
    if last == c {
      SumOverOther(front, m, c, At(m, c) + 1);
    } else {
      SumOverBump(front, m, c);
    }
  }

  /** `counts[cand] += 1` on a `defaultdict`: a missing key is added, at the end of the order. */
  method AddOne(keys: seq<Id>, counts: map<Id, nat>, cand: Id) returns (keys': seq<Id>, counts': map<Id, nat>)
    requires Distinct(keys) && forall c :: c in counts <==> c in keys
    ensures Distinct(keys') && forall c :: c in counts' <==> c in keys'
    ensures forall c :: c in keys' <==> c in keys || c == cand
    ensures forall c :: At(counts', c) == At(counts, c) + if c == cand then 1 else 0
    ensures SumOver(keys', counts') == SumOver(keys, counts) + 1
  {
    if cand in counts {
      SumOverBump(keys, counts, cand);
      keys', counts' := keys, counts[cand := counts[cand] + 1];
    } else {
      SumOverOther(keys, counts, cand, 1);
      keys', counts' := keys + [cand], counts[cand := 1];
      assert keys'[..|keys|] == keys;
    }
  }
}
