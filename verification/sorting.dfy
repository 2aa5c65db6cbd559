/** Sorting a table by a key, as `DataFrame.sort_values` does it.

    pandas does not promise a stable order for rows with equal keys, so the
    specification here is only "sorted, and a permutation of the input";
    insertion sort is one implementation that meets it.
 */
module Sorting {

  /** `before` orders every pair of rows and is transitive. */
  ghost predicate TotalPreorder<T(!new)>(before: (T, T) -> bool)
  {
    && (forall a, b :: before(a, b) || before(b, a))
    && (forall a, b, c :: before(a, b) && before(b, c) ==> before(a, c))
  }

  /** Every row comes `before` every later row. */
  ghost predicate Sorted<T>(s: seq<T>, before: (T, T) -> bool)
  {
    forall i, j :: 0 <= i < j < |s| ==> before(s[i], s[j])
  }

  /** Places `x` ahead of the first row it comes before. */
  function Insert<T(!new)>(x: T, s: seq<T>, before: (T, T) -> bool): (r: seq<T>)
    requires TotalPreorder(before)
    requires Sorted(s, before)
    ensures multiset(r) == multiset(s) + multiset{x}
    ensures Sorted(r, before)
  {
    if |s| == 0 then [x]
    else if before(x, s[0]) then [x] + s
    else
      var tail := Insert(x, s[1..], before);
      assert s == [s[0]] + s[1..];
      assert forall k :: 0 <= k < |tail| ==> before(s[0], tail[k]) by {
        forall k | 0 <= k < |tail|
          ensures before(s[0], tail[k])
        {
          assert tail[k] in multiset(tail);
          if tail[k] != x {
            assert tail[k] in multiset(s[1..]);
            var j :| 0 <= j < |s[1..]| && s[1..][j] == tail[k];
            assert s[1 + j] == tail[k];
          }
        }
      }
      [s[0]] + tail
  }

  /** Insertion sort: a sorted permutation of `s`. */
  function Sort<T(!new)>(s: seq<T>, before: (T, T) -> bool): (r: seq<T>)
    requires TotalPreorder(before)
    ensures multiset(r) == multiset(s)
    ensures Sorted(r, before)
  {
    if |s| == 0 then []
    else
      assert s == [s[0]] + s[1..];
      Insert(s[0], Sort(s[1..], before), before)
  }

  /** Taking out the row at position `k` takes one copy of it out of the
      bag of rows. */
  lemma MultisetWithout<T>(s: seq<T>, k: nat)
    requires k < |s|
    ensures multiset(s[..k] + s[k + 1..]) == multiset(s) - multiset{s[k]}
    ensures multiset(s) == multiset(s[..k] + s[k + 1..]) + multiset{s[k]}
  {
    assert s == s[..k] + [s[k]] + s[k + 1..];
  }
}
