/**
  Ordering of the process table: rows sorted in place, descending by key,
  with a stable sort (rows with equal keys keep their input order).

  The sort is generic in the element type and takes the key function as a
  parameter, the way `sort_by` takes its comparison closure; the table
  passes `Rows.Key`. `SortDesc` is the specification: insertion of each
  element, in input order, behind every element whose key is at least its
  own. The lemmas below show that it is sorted, a permutation, stable, and
  the only sequence with those properties; `SortInPlace` is proved to
  compute it on an array.
 */
module RowSort {

  /** Keys never increase from left to right. */
  ghost predicate SortedDesc<T>(s: seq<T>, key: T -> real) {
    forall i, j :: 0 <= i < j < |s| ==> key(s[i]) >= key(s[j])
  }

  /** The elements of `s` whose key is `k`, in their order in `s`. */
  function WithKey<T>(s: seq<T>, key: T -> real, k: real): seq<T> {
    if s == [] then []
    else (if key(s[0]) == k then [s[0]] else []) + WithKey(s[1..], key, k)
  }

  /** `x` placed behind the last element of `s` whose key is at least `key(x)`. */
  function Insert<T>(s: seq<T>, key: T -> real, x: T): seq<T> {
    if s == [] then [x]
    else if key(s[|s| - 1]) < key(x) then Insert(s[..|s| - 1], key, x) + [s[|s| - 1]]
    else s + [x]
  }

  /** The stable descending sort of `s` by `key`. */
  function SortDesc<T>(s: seq<T>, key: T -> real): seq<T> {
    if s == [] then [] else Insert(SortDesc(s[..|s| - 1], key), key, s[|s| - 1])
  }

  lemma {:induction false} WithKeyAppend<T>(a: seq<T>, b: seq<T>, key: T -> real, k: real)
    ensures WithKey(a + b, key, k) == WithKey(a, key, k) + WithKey(b, key, k)
    decreases |a|
  {
    if a == [] {
      assert a + b == b;
    } else {
      var head := if key(a[0]) == k then [a[0]] else [];
      assert (a + b)[0] == a[0];
      assert (a + b)[1..] == a[1..] + b;
      WithKeyAppend(a[1..], b, key, k);
      calc {
        WithKey(a + b, key, k);
        head + WithKey(a[1..] + b, key, k);
        head + (WithKey(a[1..], key, k) + WithKey(b, key, k));
        (head + WithKey(a[1..], key, k)) + WithKey(b, key, k);
      }
    }
  }

  lemma {:induction false} InsertPermutation<T>(s: seq<T>, key: T -> real, x: T)
    ensures |Insert(s, key, x)| == |s| + 1
    ensures multiset(Insert(s, key, x)) == multiset(s) + multiset{x}
    decreases |s|
  {
    if s != [] && key(s[|s| - 1]) < key(x) {
      InsertPermutation(s[..|s| - 1], key, x);
      assert s == s[..|s| - 1] + [s[|s| - 1]];
    }
  }

  lemma {:induction false} InsertSorted<T>(s: seq<T>, key: T -> real, x: T)
    requires SortedDesc(s, key)
    ensures SortedDesc(Insert(s, key, x), key)
    decreases |s|
  {
    if s != [] && key(s[|s| - 1]) < key(x) {
      var init, last := s[..|s| - 1], s[|s| - 1];
      InsertSorted(init, key, x);
      InsertPermutation(init, key, x);
      var t := Insert(init, key, x);
      forall i | 0 <= i < |t|
        ensures key(t[i]) >= key(last)
      {
        assert t[i] in multiset(t);
        if t[i] != x {
          assert t[i] in multiset(init);
          var j :| 0 <= j < |init| && init[j] == t[i];
          assert s[j] == t[i];
        }
      }
      assert Insert(s, key, x) == t + [last];
    }
  }

  lemma {:induction false} InsertKeepsKeyOrder<T>(s: seq<T>, key: T -> real, x: T, k: real)
    ensures WithKey(Insert(s, key, x), key, k) == WithKey(s, key, k) + WithKey([x], key, k)
    decreases |s|
  {
    if s == [] {
      assert Insert(s, key, x) == [x];
    } else if key(s[|s| - 1]) < key(x) {
      var init, last := s[..|s| - 1], s[|s| - 1];
      InsertKeepsKeyOrder(init, key, x, k);
      WithKeyAppend(Insert(init, key, x), [last], key, k);
      WithKeyAppend(init, [last], key, k);
      assert s == init + [last];
      assert WithKey([last], key, k) == [] || WithKey([x], key, k) == [];
    } else {
      WithKeyAppend(s, [x], key, k);
    }
  }

  /** Sorting keeps the length and the multiset of elements. */
  lemma {:induction false} SortDescPermutation<T>(s: seq<T>, key: T -> real)
    ensures |SortDesc(s, key)| == |s|
    ensures multiset(SortDesc(s, key)) == multiset(s)
    decreases |s|
  {
    if s != [] {
      var init, last := s[..|s| - 1], s[|s| - 1];
      SortDescPermutation(init, key);
      InsertPermutation(SortDesc(init, key), key, last);
      assert multiset(s) == multiset(init) + multiset{last} by {
        assert s == init + [last];
      }
    }
  }

  /** After sorting, keys never increase. */
  lemma {:induction false} SortDescSorted<T>(s: seq<T>, key: T -> real)
    ensures SortedDesc(SortDesc(s, key), key)
    decreases |s|
  {
    if s != [] {
      SortDescSorted(s[..|s| - 1], key);
      InsertSorted(SortDesc(s[..|s| - 1], key), key, s[|s| - 1]);
    }
  }

  /** Elements with equal keys appear in the same relative order as in the input. */
  lemma {:induction false} SortDescStable<T>(s: seq<T>, key: T -> real, k: real)
    ensures WithKey(SortDesc(s, key), key, k) == WithKey(s, key, k)
    decreases |s|
  {
    if s != [] {
      var init, last := s[..|s| - 1], s[|s| - 1];
      SortDescStable(init, key, k);
      InsertKeepsKeyOrder(SortDesc(init, key), key, last, k);
      WithKeyAppend(init, [last], key, k);
      assert s == init + [last];
    }
  }

  lemma {:induction false} WithKeyNonEmpty<T>(s: seq<T>, key: T -> real, k: real)
    requires WithKey(s, key, k) != []
    ensures exists i :: 0 <= i < |s| && key(s[i]) == k
    decreases |s|
  {
    if key(s[0]) != k {
      WithKeyNonEmpty(s[1..], key, k);
      var i :| 0 <= i < |s[1..]| && key(s[1..][i]) == k;
      assert key(s[i + 1]) == k;
    }
  }

  lemma WithKeyHead<T>(s: seq<T>, key: T -> real)
    requires s != []
    ensures WithKey(s, key, key(s[0])) != []
  {
  }

  /** Two non-empty sorted sequences that agree on the elements of every key start alike. */
  lemma SortedSameHead<T>(a: seq<T>, b: seq<T>, key: T -> real)
    requires a != [] && b != []
    requires SortedDesc(a, key) && SortedDesc(b, key)
    requires forall k :: WithKey(a, key, k) == WithKey(b, key, k)
    ensures a[0] == b[0]
  {
    var ka, kb := key(a[0]), key(b[0]);
    WithKeyHead(a, key);
    WithKeyNonEmpty(b, key, ka);
    var j :| 0 <= j < |b| && key(b[j]) == ka;
    assert kb >= ka by { assert j == 0 || key(b[0]) >= key(b[j]); }
    WithKeyHead(b, key);
    WithKeyNonEmpty(a, key, kb);
    var i :| 0 <= i < |a| && key(a[i]) == kb;
    assert ka >= kb by { assert i == 0 || key(a[0]) >= key(a[i]); }
    assert WithKey(a, key, ka)[0] == a[0];
    assert WithKey(b, key, ka)[0] == b[0];
  }

  /** Dropping a common first element keeps the elements of every key equal. */
  lemma WithKeyTails<T>(a: seq<T>, b: seq<T>, key: T -> real)
    requires a != [] && b != [] && a[0] == b[0]
    requires forall k :: WithKey(a, key, k) == WithKey(b, key, k)
    ensures forall k :: WithKey(a[1..], key, k) == WithKey(b[1..], key, k)
  {
    forall k
      ensures WithKey(a[1..], key, k) == WithKey(b[1..], key, k)
    {
      var h := if key(a[0]) == k then [a[0]] else [];
      assert WithKey(a, key, k) == h + WithKey(a[1..], key, k);
      assert WithKey(b, key, k) == h + WithKey(b[1..], key, k);
      assert WithKey(a[1..], key, k) == WithKey(a, key, k)[|h|..];
      assert WithKey(b[1..], key, k) == WithKey(b, key, k)[|h|..];
    }
  }

  /** Two sorted sequences that agree on the elements of every key are equal. */
  lemma {:induction false} SortedDeterminedByKeys<T>(a: seq<T>, b: seq<T>, key: T -> real)
    requires SortedDesc(a, key) && SortedDesc(b, key)
    requires forall k :: WithKey(a, key, k) == WithKey(b, key, k)
    ensures a == b
    decreases |a| + |b|
  {
    if a == [] || b == [] {
      if a != [] {
        WithKeyHead(a, key);
        assert false;
      } else if b != [] {
        WithKeyHead(b, key);
        assert false;
      }
    } else {
      SortedSameHead(a, b, key);
      WithKeyTails(a, b, key);
      SortedDeterminedByKeys(a[1..], b[1..], key);
      assert a == [a[0]] + a[1..] && b == [b[0]] + b[1..];
    }
  }

  /**
    `SortDesc` is the stable descending sort: any sorted sequence that keeps
    the elements of each key in input order is exactly `SortDesc(s, key)`.
   */
  lemma SortDescUnique<T>(s: seq<T>, r: seq<T>, key: T -> real)
    requires SortedDesc(r, key)
    requires forall k :: WithKey(r, key, k) == WithKey(s, key, k)
    ensures r == SortDesc(s, key)
  {
    SortDescSorted(s, key);
    forall k
      ensures WithKey(r, key, k) == WithKey(SortDesc(s, key), key, k)
    {
      SortDescStable(s, key, k);
    }
    SortedDeterminedByKeys(r, SortDesc(s, key), key);
  }

  /** Three elements with keys in the order b > c > a come out as b, c, a. */
  lemma SortThree<T>(a: T, b: T, c: T, key: T -> real)
    requires key(a) < key(c) < key(b)
    ensures SortDesc([a, b, c], key) == [b, c, a]
  {
    assert [a, b, c][..2] == [a, b] && [a, b][..1] == [a] && [a][..0] == [];
    assert SortDesc([a], key) == [a];
    assert Insert([a], key, b) == Insert([], key, b) + [a];
    assert SortDesc([a, b], key) == [b, a];
    assert [b, a][..1] == [b];
    assert Insert([b, a], key, c) == Insert([b], key, c) + [a];
  }

  /**
    `Insert` puts `x` right behind the last element whose key is at least
    `key(x)`: when every element from `j` on has a smaller key and the one
    before `j` (if any) does not, `x` lands at index `j`.
   */
  lemma {:induction false} InsertSplit<T>(t: seq<T>, key: T -> real, x: T, j: nat)
    requires j <= |t|
    requires forall k :: j <= k < |t| ==> key(t[k]) < key(x)
    requires j == 0 || key(t[j - 1]) >= key(x)
    ensures Insert(t, key, x) == t[..j] + [x] + t[j..]
    decreases |t|
  {
    if |t| > j {
      var init := t[..|t| - 1];
      InsertSplit(init, key, x, j);
      assert init[..j] == t[..j];
      assert t[j..] == init[j..] + [t[|t| - 1]];
    } else {
      assert t[..j] == t;
    }
  }

  /**
    Moves `a[i]` left past every element of `a[..i]` whose key is smaller,
    shifting those one place right: one insertion step.
   */
  method InsertAt<T>(a: array<T>, key: T -> real, i: nat)
    requires i < a.Length
    modifies a
    ensures a[..i + 1] == Insert(old(a[..i]), key, old(a[i]))
    ensures a[i + 1..] == old(a[i + 1..])
  {
    ghost var sorted := a[..i];
    var x := a[i];
    var j := i;
    while j > 0 && key(a[j - 1]) < key(x)
      invariant 0 <= j <= i
      invariant forall k :: 0 <= k < j ==> a[k] == sorted[k]
      invariant forall k :: j < k <= i ==> a[k] == sorted[k - 1]
      invariant forall k :: i < k < a.Length ==> a[k] == old(a[k])
      invariant forall k :: j <= k < i ==> key(sorted[k]) < key(x)
    {
      a[j] := a[j - 1];
      j := j - 1;
    }
    a[j] := x;
    InsertSplit(sorted, key, x, j);
    assert a[..i + 1] == sorted[..j] + [x] + sorted[j..];
  }

  /** Sorts `a` in place, descending by `key` and stably. */
  method SortInPlace<T>(a: array<T>, key: T -> real)
    modifies a
    ensures a[..] == SortDesc(old(a[..]), key)
  {
    ghost var input := a[..];
    var i := 0;
    while i < a.Length
      invariant 0 <= i <= a.Length
      invariant a[..i] == SortDesc(input[..i], key)
      invariant a[i..] == input[i..]
    {
      InsertAt(a, key, i);
      assert input[..i + 1][..i] == input[..i];
      assert input[..i + 1][i] == input[i];
      i := i + 1;
    }
    assert input[..a.Length] == input;
  }
}
