/** Sums over finite maps, in any order. */
module Sums {
  ghost function Sum<K(!new)>(m: map<K, int>): int {
    if m == map[] then 0
    else
      var k :| k in m;
      m[k] + Sum(m - {k})
  }

  /** Any key may be taken out first. */
  lemma {:induction false} SumWithout<K(!new)>(m: map<K, int>, k: K)
    requires k in m
    ensures Sum(m) == m[k] + Sum(m - {k})
    decreases |m|
  {
    var first :| first in m && Sum(m) == m[first] + Sum(m - {first});
    if first != k {
      var rest := m - {first};
      assert |rest| < |m| && |m - {k}| < |m| by {
        assert rest.Keys == m.Keys - {first} && (m - {k}).Keys == m.Keys - {k};
      }
      SumWithout(rest, k);
      SumWithout(m - {k}, first);
      assert rest - {k} == m - {k} - {first};
    }
  }

  lemma SumUpdated<K(!new)>(m: map<K, int>, k: K, v: int)
    ensures Sum(m[k := v]) == Sum(m) - (if k in m then m[k] else 0) + v
  {
    SumWithout(m[k := v], k);
    assert m[k := v] - {k} == m - {k};
    if k in m {
      SumWithout(m, k);
    } else {
      assert m - {k} == m;
    }
  }

  lemma {:induction false} SumAtLeast<K(!new)>(m: map<K, int>, k: K)
    requires k in m && forall j :: j in m ==> m[j] >= 0
    ensures Sum(m) >= m[k]
  {
    SumWithout(m, k);
    SumNonNegative(m - {k});
  }

  lemma {:induction false} SumNonNegative<K(!new)>(m: map<K, int>)
    requires forall j :: j in m ==> m[j] >= 0
    ensures Sum(m) >= 0
    decreases |m|
  {
    if m != map[] {
      var k :| k in m && Sum(m) == m[k] + Sum(m - {k});
      assert (m - {k}).Keys == m.Keys - {k};
      SumNonNegative(m - {k});
    }
  }
}
