/** The `defaultdict(int)` counters the processor fills with `d[k] += 1`,
    and what such a counter holds once every key has been counted. */
module Counters {
  import opened Seqs

  /** `d[k] += 1` on a `defaultdict(int)`: a missing key starts at zero. */
  function Bump<K>(m: map<K, nat>, k: K): map<K, nat> {
    m[k := (if k in m then m[k] else 0) + 1]
  }

  /** The counter after `d[k] += 1` for every `k` of `ks`, in order. */
  function Tally<K>(ks: seq<K>): map<K, nat> {
    if ks == [] then map[] else Bump(Tally(ks[..|ks| - 1]), ks[|ks| - 1])
  }

  lemma TallySnoc<K>(ks: seq<K>, k: K)
    ensures Tally(ks + [k]) == Bump(Tally(ks), k)
  {
    assert (ks + [k])[..|ks|] == ks;
  }

  /** The counter holds exactly the keys that occur, each with its number
      of occurrences. */
  lemma {:induction false} TallyCounts<K>(ks: seq<K>)
    ensures Tally(ks).Keys == set k | k in ks
    ensures forall k :: k in Tally(ks) ==> Tally(ks)[k] == multiset(ks)[k]
  {
    if ks != [] {
      var f, x := ks[..|ks| - 1], ks[|ks| - 1];
      assert ks == f + [x];
      TallyCounts(f);
      assert multiset(ks) == multiset(f) + multiset{x};
    }
  }

  /** The values of `m` at the keys `ks`, added up; a key `m` lacks adds zero. */
  function SumAt<K>(ks: seq<K>, m: map<K, nat>): int {
    if ks == [] then 0
    else SumAt(ks[..|ks| - 1], m) + (if ks[|ks| - 1] in m then m[ks[|ks| - 1]] else 0)
  }

  lemma SumAtSnoc<K>(ks: seq<K>, k: K, m: map<K, nat>)
    ensures SumAt(ks + [k], m) == SumAt(ks, m) + (if k in m then m[k] else 0)
  {
    assert (ks + [k])[..|ks|] == ks;
  }

  /** Counting `k` once more adds one to a sum that visits `k` once. */
  lemma {:induction false} SumAtBump<K>(ks: seq<K>, m: map<K, nat>, k: K)
    requires NoDup(ks)
    ensures SumAt(ks, Bump(m, k)) == SumAt(ks, m) + (if k in ks then 1 else 0)
  {
    if ks != [] {
      var f, x := ks[..|ks| - 1], ks[|ks| - 1];
      assert ks == f + [x];
      assert NoDup(f);
      assert x !in f;
      SumAtBump(f, m, k);
    }
  }

  /** The counts, one per distinct key, add up to the number of keys counted. */
  lemma {:induction false} TallySum<K>(ks: seq<K>)
    ensures SumAt(Distinct(ks), Tally(ks)) == |ks|
  {
    if ks != [] {
      var f, x := ks[..|ks| - 1], ks[|ks| - 1];
      assert ks == f + [x];
      TallySum(f);
      TallyCounts(f);
      SumAtBump(Distinct(f), Tally(f), x);
      if x !in f {
        SumAtSnoc(Distinct(f), x, Bump(Tally(f), x));
      }
    }
  }

  /** There are as many counter keys as distinct keys counted. */
  lemma TallyKeyCount<K>(ks: seq<K>)
    ensures |Tally(ks).Keys| == |set k | k in ks|
  {
    TallyCounts(ks);
  }
}
