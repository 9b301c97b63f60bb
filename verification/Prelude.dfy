/** Shared vocabulary: optional values and the clock. */
module Prelude {
  datatype Option<+T> = None | Some(value: T) {
    function GetOr(other: T): T {
      if None? then other else value
    }
  }

  // Points in time and durations are whole microseconds, the resolution of the
  // `datetime` values the program computes with.
  const SECOND: int := 1_000_000
  const MINUTE: int := 60 * SECOND
  const HOUR: int := 60 * MINUTE
  const DAY: int := 24 * HOUR

  function Min(a: int, b: int): int {
    if a <= b then a else b
  }

  lemma RemoveKey<K, V>(m: map<K, V>, k: K)
    requires k in m
    ensures |m - {k}| == |m| - 1
  {
    assert (m - {k}).Keys == m.Keys - {k};
  }

  lemma SubsetIsSmaller<T>(small: set<T>, big: set<T>)
    requires small <= big
    ensures |small| <= |big|
  {
    assert big == small + (big - small);
  }

  ghost function Sum(m: map<string, nat>): nat {
    if m == map[] then 0
    else
      var k :| k in m;
      m[k] + Sum(m - {k})
  }

  // The sum is the same whichever key is taken out first.
  lemma {:induction false} SumOf(m: map<string, nat>, k: string)
    requires k in m
    ensures Sum(m) == m[k] + Sum(m - {k})
    decreases |m|
  {
    var first :| first in m && Sum(m) == m[first] + Sum(m - {first});
    if first != k {
      RemoveKey(m, first);
      RemoveKey(m, k);
      SumOf(m - {first}, k);
      SumOf(m - {k}, first);
      assert m - {first} - {k} == m - {k} - {first};
    }
  }
}
