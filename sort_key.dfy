/**
 * Sorting by a key, as `_.sortBy(list, key)` does: its result is a
 * permutation of the list that is ordered by the key. When the keys of a
 * list are strictly ascending, that result is determined: it is the list.
 */
module SortKey {

  ghost predicate SortedBy<T>(s: seq<T>, key: T -> int)
  {
    forall i, j | 0 <= i < j < |s| :: key(s[i]) <= key(s[j])
  }

  ghost predicate StrictlyAscendingBy<T>(s: seq<T>, key: T -> int)
  {
    forall i, j | 0 <= i < j < |s| :: key(s[i]) < key(s[j])
  }

  /** A sorted permutation of a strictly ascending list starts where the list starts. */
  lemma SameHead<T>(asc: seq<T>, s: seq<T>, key: T -> int)
    requires StrictlyAscendingBy(asc, key) && SortedBy(s, key)
    requires multiset(s) == multiset(asc) && asc != []
    ensures s != [] && s[0] == asc[0]
  {
    assert |s| == |asc| by { assert |multiset(s)| == |multiset(asc)|; }
    assert s[0] in multiset(asc) by { assert s[0] in multiset(s); }
    var i :| 0 <= i < |asc| && asc[i] == s[0];
    assert asc[0] in multiset(s) by { assert asc[0] in multiset(asc); }
    var j :| 0 <= j < |s| && s[j] == asc[0];
    assert key(s[0]) <= key(s[j]);
    assert i == 0;
  }

  lemma TailPermutation<T>(a: seq<T>, b: seq<T>)
    requires multiset(a) == multiset(b) && a != [] && b != [] && a[0] == b[0]
    ensures multiset(a[1..]) == multiset(b[1..])
  {
    var x := a[0];
    assert multiset(a) == multiset{x} + multiset(a[1..]) by { assert a == [x] + a[1..]; }
    assert multiset(b) == multiset{x} + multiset(b[1..]) by { assert b == [x] + b[1..]; }
    assert multiset(a[1..]) == multiset(a) - multiset{x};
    assert multiset(b[1..]) == multiset(b) - multiset{x};
  }

  /**
   * Distinct keys leave one way to sort: every permutation of `asc` that is
   * sorted by `key` is `asc` itself.
   */
  lemma {:induction false} SortedPermutationIsUnique<T>(asc: seq<T>, s: seq<T>, key: T -> int)
    requires StrictlyAscendingBy(asc, key)
    requires SortedBy(s, key)
    requires multiset(s) == multiset(asc)
    ensures s == asc
  {
    if asc == [] {
      assert |s| == 0 by { assert |multiset(s)| == 0; }
    } else {
      SameHead(asc, s, key);
      TailPermutation(s, asc);
      SortedPermutationIsUnique(asc[1..], s[1..], key);
      assert s == [s[0]] + s[1..] && asc == [asc[0]] + asc[1..];
    }
  }
}
