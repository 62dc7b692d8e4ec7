/** Keeping only the latest write under each key, in key order. */
module Compaction {
  import opened Base

  ghost predicate StrictOrder<K(!new)>(less: (K, K) -> bool) {
    && (forall a :: !less(a, a))
    && (forall a, b :: a != b ==> less(a, b) || less(b, a))
    && (forall a, b, c :: less(a, b) && less(b, c) ==> less(a, c))
  }

  ghost predicate Sorted<K(!new)>(keys: seq<K>, less: (K, K) -> bool) {
    forall i, j :: 0 <= i < j < |keys| ==> less(keys[i], keys[j])
  }

  method Least<K(==, !new)>(keys: set<K>, less: (K, K) -> bool) returns (m: K)
    requires keys != {} && StrictOrder(less)
    ensures m in keys && forall k :: k in keys ==> k == m || less(m, k)
  {
    m :| m in keys;
    var left := keys - {m};
    while left != {}
      invariant left <= keys && m in keys
      invariant forall k :: k in keys - left ==> k == m || less(m, k)
      decreases left
    {
      var k :| k in left;
      left := left - {k};
      if less(k, m) {
        assert forall x :: less(m, x) ==> less(k, x);
        m := k;
      } else {
        assert k == m || less(m, k);
      }
    }
  }

  /** sort.Strings and sort.Slice on the keys of a map. */
  method Sort<K(==, !new)>(keys: set<K>, less: (K, K) -> bool) returns (sorted: seq<K>)
    requires StrictOrder(less)
    ensures Sorted(sorted, less)
    ensures forall k :: k in sorted <==> k in keys
  {
    sorted := [];
    var left := keys;
    while left != {}
      invariant left <= keys && Sorted(sorted, less)
      invariant forall k :: k in sorted <==> k in keys - left
      invariant forall i, k :: 0 <= i < |sorted| && k in left ==> less(sorted[i], k)
      decreases left
    {
      var m := Least(left, less);
      left := left - {m};
      sorted := sorted + [m];
    }
  }

  /** The last write under key `k`. */
  function Latest<W, K(==)>(writes: seq<W>, key: W -> K, k: K): Option<W> {
    if writes == [] then None
    else if key(writes[|writes| - 1]) == k then Some(writes[|writes| - 1])
    else Latest(writes[..|writes| - 1], key, k)
  }

  ghost predicate Compacts<W(!new), K(!new)>(writes: seq<W>, kept: seq<W>, key: W -> K, less: (K, K) -> bool) {
    && (forall i, j :: 0 <= i < j < |kept| ==> less(key(kept[i]), key(kept[j])))
    && (forall i :: 0 <= i < |kept| ==> Latest(writes, key, key(kept[i])) == Some(kept[i]))
    && (forall i :: 0 <= i < |writes| ==> exists j :: 0 <= j < |kept| && key(kept[j]) == key(writes[i]))
  }

  /** Where the latest write stands. */
  lemma {:induction false} LatestAt<W(!new), K(!new)>(writes: seq<W>, key: W -> K, k: K)
    ensures match Latest(writes, key, k)
      case None => forall i :: 0 <= i < |writes| ==> key(writes[i]) != k
      case Some(w) => exists i :: 0 <= i < |writes| && writes[i] == w && key(w) == k
                                  && forall j :: i < j < |writes| ==> key(writes[j]) != k
  {
    var n := |writes| - 1;
    if writes == [] {
    } else if key(writes[n]) == k {
      assert Latest(writes, key, k) == Some(writes[n]);
    } else {
      var init := writes[..n];
      LatestAt(init, key, k);
      if Latest(init, key, k).Some? {
        var i :| 0 <= i < |init| && init[i] == Latest(init, key, k).value && key(init[i]) == k
                 && forall j :: i < j < |init| ==> key(init[j]) != k;
        assert writes[i] == init[i];
        forall j | i < j < |writes| ensures key(writes[j]) != k {
          assert j < n ==> writes[j] == init[j];
        }
      } else {
        forall j | 0 <= j < |writes| ensures key(writes[j]) != k {
          assert j < n ==> writes[j] == init[j];
        }
      }
    }
  }

  /** Compaction loses no key. */
  lemma KeyKept<W(!new), K(!new)>(writes: seq<W>, kept: seq<W>, key: W -> K, less: (K, K) -> bool, i: nat)
    returns (j: nat)
    requires Compacts(writes, kept, key, less) && i < |writes|
    ensures j < |kept| && key(kept[j]) == key(writes[i])
  {
    var k := key(writes[i]);
    j :| 0 <= j < |kept| && key(kept[j]) == k;
  }

  method Compact<W(!new), K(==, !new)>(writes: seq<W>, key: W -> K, less: (K, K) -> bool) returns (kept: seq<W>)
    requires StrictOrder(less)
    ensures Compacts(writes, kept, key, less)
  {
    if |writes| <= 1 {
      return writes;
    }
    var latest: map<K, W> := map[];
    for i := 0 to |writes|
      invariant forall k :: k in latest <==> Latest(writes[..i], key, k).Some?
      invariant forall k :: k in latest ==> Latest(writes[..i], key, k) == Some(latest[k]) && key(latest[k]) == k
    {
      assert writes[..i + 1][..i] == writes[..i];
      latest := latest[key(writes[i]) := writes[i]];
    }
    assert writes[..|writes|] == writes;
    var keys := Sort(latest.Keys, less);
    kept := [];
    for i := 0 to |keys|
      invariant |kept| == i && forall j :: 0 <= j < i ==> kept[j] == latest[keys[j]]
    {
      kept := kept + [latest[keys[i]]];
    }
    forall i | 0 <= i < |writes| ensures exists j :: 0 <= j < |kept| && key(kept[j]) == key(writes[i]) {
      LatestAt(writes, key, key(writes[i]));
      var j :| 0 <= j < |keys| && keys[j] == key(writes[i]);
      assert kept[j] == latest[keys[j]];
    }
  }
}
