/**
 * Count maps as the order summaries build them: `acc[key] = (acc[key] || 0) + 1`
 * for each key in turn, starting from a seed map.
 */
module Counting {
  import opened Seqs

  /** `acc[key] || 0`. */
  function Get(m: map<string, nat>, k: string): nat {
    if k in m then m[k] else 0
  }

  /** The map after counting `keys` one by one into `seed`, in order. */
  function Tally(seed: map<string, nat>, keys: seq<string>): (m: map<string, nat>)
    ensures seed.Keys <= m.Keys
    ensures forall i :: 0 <= i < |keys| ==> keys[i] in m
    decreases |keys|
  {
    if keys == [] then seed
    else
      var m := Tally(seed, keys[..|keys| - 1]);
      var k := keys[|keys| - 1];
      m[k := Get(m, k) + 1]
  }

  /** Counting one more element of `xs`, keyed by `f`, bumps that key's count. */
  lemma TallyMapStep<T>(seed: map<string, nat>, xs: seq<T>, f: T -> string, i: nat)
    requires i < |xs|
    ensures var m := Tally(seed, Map(xs[..i], f));
      Tally(seed, Map(xs[..i + 1], f)) == m[f(xs[i]) := Get(m, f(xs[i])) + 1]
  {
    var keys := Map(xs[..i + 1], f);
    assert keys[..|keys| - 1] == Map(xs[..i], f);
  }

  /** Each count is the seed's count plus the number of occurrences; no other key appears. */
  lemma {:induction false} TallyCounts(seed: map<string, nat>, keys: seq<string>, k: string)
    ensures k in Tally(seed, keys) <==> k in seed || k in keys
    ensures Get(Tally(seed, keys), k) == Get(seed, k) + multiset(keys)[k]
    decreases |keys|
  {
    if keys != [] {
      var init := keys[..|keys| - 1];
      assert keys == init + [keys[|keys| - 1]];
      TallyCounts(seed, init, k);
    }
  }

  /** The sum of a map's values. */
  ghost function SumValues(m: map<string, nat>): nat
    decreases |m|
  {
    if m == map[] then 0
    else
      assert exists k :: k in m.Keys by {
        assert m.Keys != {};
      }
      var k :| k in m.Keys;
      m[k] + SumValues(m - {k})
  }

  /** The sum does not depend on which key is taken out first. */
  lemma {:induction false} SumRemove(m: map<string, nat>, k: string)
    requires k in m
    ensures SumValues(m) == m[k] + SumValues(m - {k})
    decreases |m|
  {
    var j :| j in m.Keys && SumValues(m) == m[j] + SumValues(m - {j});
    if j != k {
      var mj := m - {j};
      var mk := m - {k};
      SumRemove(mj, k);
      SumRemove(mk, j);
      assert mj - {k} == mk - {j};
    }
  }

  /** Adding one to one key adds one to the sum. */
  lemma SumIncrement(m: map<string, nat>, k: string)
    ensures SumValues(m[k := Get(m, k) + 1]) == SumValues(m) + 1
  {
    var n := m[k := Get(m, k) + 1];
    SumRemove(n, k);
    assert n - {k} == m - {k};
    if k in m {
      SumRemove(m, k);
    } else {
      assert m - {k} == m;
    }
  }

  /** Every key counted adds exactly one to the total. */
  lemma {:induction false} TallySum(seed: map<string, nat>, keys: seq<string>)
    ensures SumValues(Tally(seed, keys)) == SumValues(seed) + |keys|
    decreases |keys|
  {
    if keys != [] {
      TallySum(seed, keys[..|keys| - 1]);
      SumIncrement(Tally(seed, keys[..|keys| - 1]), keys[|keys| - 1]);
    }
  }

  /** A map of zeros sums to zero. */
  lemma {:induction false} SumZeros(m: map<string, nat>)
    requires forall k :: k in m ==> m[k] == 0
    ensures SumValues(m) == 0
    decreases |m|
  {
    if m != map[] {
      var k :| k in m.Keys;
      SumRemove(m, k);
      SumZeros(m - {k});
    }
  }
}
