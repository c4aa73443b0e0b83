/**
 * The sum of the values of a finite map, used to state the totals that the
 * two counting passes must reach.
 */
module Sums {

  ghost function SumValues<K>(m: map<K, nat>): nat
    decreases |m|
  {
    if m == map[] then 0
    else
      var k :| k in m;
      assert |(m - {k}).Keys| == |m.Keys - {k}| == |m| - 1;
      m[k] + SumValues(m - {k})
  }

  /** Any key may be taken out first: the sum does not depend on the order of the keys. */
  lemma {:induction false} SumRemove<K>(m: map<K, nat>, x: K)
    requires x in m
    ensures SumValues(m) == m[x] + SumValues(m - {x})
    decreases |m|
  {
    var k :| k in m && SumValues(m) == m[k] + SumValues(m - {k});
    if k != x {
      assert |(m - {k}).Keys| == |m.Keys - {k}| == |m| - 1;
      assert |(m - {x}).Keys| == |m.Keys - {x}| == |m| - 1;
      SumRemove(m - {k}, x);
      SumRemove(m - {x}, k);
      assert (m - {k}) - {x} == (m - {x}) - {k};
    }
  }

  /** Setting one key to v changes the sum by v minus what the key held before (0 when absent). */
  lemma SumUpdate<K>(m: map<K, nat>, x: K, v: nat)
    ensures SumValues(m[x := v]) + (if x in m then m[x] else 0) == SumValues(m) + v
  {
    SumRemove(m[x := v], x);
    assert m[x := v] - {x} == m - {x};
    if x in m {
      SumRemove(m, x);
    } else {
      assert m - {x} == m;
    }
  }

  /** `m[x] = m.get(x, 0) + 1`: the update both counters apply once per iteration. */
  function Bump<K>(m: map<K, nat>, x: K): map<K, nat>
  {
    m[x := (if x in m then m[x] else 0) + 1]
  }

  /** Bumping one count adds one to the sum. */
  lemma SumBump<K>(m: map<K, nat>, x: K, m': map<K, nat>)
    requires m' == Bump(m, x)
    ensures SumValues(m') == SumValues(m) + 1
  {
    SumUpdate(m, x, (if x in m then m[x] else 0) + 1);
  }
}
