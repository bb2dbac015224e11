/** Lists in strictly ascending order of a key: insertion from the back, and the one
    result any such sort can have. */
module Sorting {
  import opened Layout

  ghost predicate Ascending<T(!new)>(s: seq<T>, key: T -> nat) {
    forall i, j :: 0 <= i < j < |s| ==> key(s[i]) < key(s[j])
  }

  method Insert<T(!new)>(sorted: seq<T>, x: T, key: T -> nat) returns (out: seq<T>)
    requires Ascending(sorted, key) && forall q :: q in sorted ==> key(q) != key(x)
    ensures Ascending(out, key) && multiset(out) == multiset(sorted) + multiset{x}
    ensures forall q :: q in out <==> q in sorted || q == x
  {
    hide Ascending, InsertAt;
    var i: nat := |sorted|;
    while i > 0 && key(sorted[i - 1]) > key(x)
      invariant i <= |sorted| && forall k :: i <= k < |sorted| ==> key(sorted[k]) > key(x)
    {
      i := i - 1;
    }
    SmallerBefore(sorted, x, key, i);
    InsertedOrder(sorted, x, key, i);
    InsertedMembers(sorted, i, x);
    return InsertAt(sorted, i, x);
  }

  lemma SmallerBefore<T(!new)>(sorted: seq<T>, x: T, key: T -> nat, i: nat)
    requires Ascending(sorted, key) && i <= |sorted| && forall q :: q in sorted ==> key(q) != key(x)
    requires i > 0 ==> key(sorted[i - 1]) <= key(x)
    ensures forall k :: 0 <= k < i ==> key(sorted[k]) < key(x)
  {
    if i > 0 { assert sorted[i - 1] in sorted; }
  }

  lemma InsertedOrder<T(!new)>(sorted: seq<T>, x: T, key: T -> nat, i: nat)
    requires Ascending(sorted, key) && i <= |sorted|
    requires forall k :: 0 <= k < i ==> key(sorted[k]) < key(x)
    requires forall k :: i <= k < |sorted| ==> key(sorted[k]) > key(x)
    ensures Ascending(InsertAt(sorted, i, x), key)
  {}

  lemma LastOf<T(!new)>(a: seq<T>, key: T -> nat)
    requires Ascending(a, key) && a != []
    ensures var n := |a| - 1;
            && Ascending(a[..n], key) && a[n] in a
            && (forall q :: q in a ==> key(q) <= key(a[n]) && (key(q) == key(a[n]) ==> q == a[n]))
            && (forall q :: q in a[..n] <==> q in a && q != a[n])
  {
    var n := |a| - 1;
    assert a == a[..n] + [a[n]];
  }

  /** Two lists in ascending order with the same members are the same list, so a sort by
      distinct keys determines its result, whatever order it starts from. */
  lemma {:induction false} SortedUnique<T(!new)>(a: seq<T>, b: seq<T>, key: T -> nat)
    requires Ascending(a, key) && Ascending(b, key) && forall q :: q in a <==> q in b
    ensures a == b
    decreases |a|
  {
    hide Ascending;
    assert b != [] ==> b[0] in a;
    assert a != [] ==> a[0] in b;
    if a != [] {
      LastOf(a, key);
      LastOf(b, key);
      SortedUnique(a[..|a| - 1], b[..|b| - 1], key);
      assert a == a[..|a| - 1] + [a[|a| - 1]] && b == b[..|b| - 1] + [b[|b| - 1]];
    }
  }
}
