/** Going through the keys of a map in any order while some of them are removed. */
module Scanning {
  function Without<K, V>(m: map<K, V>, gone: set<K>): map<K, V> {
    m - gone
  }

  /** With the chosen keys gone except those still to do, the next key is still there as it was;
      passing it removes it exactly when it is chosen. */
  lemma ScanOne<K, V>(m: map<K, V>, chosen: set<K>, todo: set<K>, k: K)
    requires k in todo && todo <= m.Keys
    ensures k in Without(m, chosen - todo) && Without(m, chosen - todo)[k] == m[k]
    ensures k !in chosen ==> chosen - (todo - {k}) == chosen - todo
    ensures k in chosen ==>
      && |chosen - (todo - {k})| == |chosen - todo| + 1
      && Without(m, chosen - (todo - {k})) == Without(m, chosen - todo) - {k}
  {
    var gone := chosen - todo;
    if k in chosen {
      assert chosen - (todo - {k}) == gone + {k};
    } else {
      assert chosen - (todo - {k}) == gone;
    }
  }

  /** What of `s` lies outside `todo` grows by `x` when `x` leaves `todo`. */
  lemma OneLess<T>(s: set<T>, todo: set<T>, x: T)
    requires x in todo
    ensures s - (todo - {x}) == (s - todo) + (if x in s then {x} else {})
    ensures |s - (todo - {x})| == |s - todo| + (if x in s then 1 else 0)
  {
    assert s - (todo - {x}) == (s - todo) + (if x in s then {x} else {});
  }
}
