/**
 * Filtering and stable sorting by an integer key.
 *
 * Java's `List.sort` and `Stream.sorted` are stable sorts. `SortByKey` is the
 * functional specification of such a sort (an insertion sort that puts each new
 * element after every element whose key is not greater), and `SortInPlace` is the
 * in-place algorithm on an array, proved to produce exactly `SortByKey` of its input.
 */
module Sorting {

  /** The elements of `s` that satisfy `p`, in their original order. */
  function Filter<T(!new)>(s: seq<T>, p: T -> bool): (r: seq<T>)
    ensures |r| <= |s|
    ensures forall i :: 0 <= i < |r| ==> p(r[i])
    ensures forall x :: x in r <==> x in s && p(x)
    ensures forall x :: multiset(r)[x] == if p(x) then multiset(s)[x] else 0
  {
    if s == [] then []
    else
      assert s == [s[0]] + s[1..];
      if p(s[0]) then [s[0]] + Filter(s[1..], p) else Filter(s[1..], p)
  }

  /** Filtering a sorted sequence leaves it sorted. */
  lemma {:induction false} FilterKeepsSorted<T(!new)>(s: seq<T>, p: T -> bool, key: T -> int)
    requires SortedBy(s, key)
    ensures SortedBy(Filter(s, p), key)
  {
    if s != [] {
      var rest := Filter(s[1..], p);
      FilterKeepsSorted(s[1..], p, key);
      forall x | x in rest ensures key(s[0]) <= key(x) {
        var k :| 0 <= k < |s[1..]| && s[1..][k] == x;
        assert s[k + 1] == x;
      }
    }
  }

  /** Filtering keeps order: a concatenation is filtered part by part. */
  lemma {:induction false} FilterConcat<T(!new)>(a: seq<T>, b: seq<T>, p: T -> bool)
    ensures Filter(a + b, p) == Filter(a, p) + Filter(b, p)
  {
    if a == [] {
      assert a + b == b;
    } else {
      assert (a + b)[0] == a[0];
      assert (a + b)[1..] == a[1..] + b;
      FilterConcat(a[1..], b, p);
    }
  }

  /** `s` is in non-decreasing order of `key`. */
  predicate SortedBy<T>(s: seq<T>, key: T -> int) {
    forall i, j :: 0 <= i < j < |s| ==> key(s[i]) <= key(s[j])
  }

  /**
   * `x` inserted into `s` after every element whose key is not greater than `key(x)`
   * (the step of a stable insertion sort).
   */
  function Insert<T(!new)>(x: T, s: seq<T>, key: T -> int): (r: seq<T>)
    ensures |r| == |s| + 1
  {
    if s == [] || key(s[|s| - 1]) <= key(x) then s + [x]
    else Insert(x, s[..|s| - 1], key) + [s[|s| - 1]]
  }

  /** Inserting adds exactly one occurrence of `x` and loses nothing. */
  lemma {:induction false} InsertPermutes<T(!new)>(x: T, s: seq<T>, key: T -> int)
    ensures multiset(Insert(x, s, key)) == multiset(s) + multiset{x}
  {
    if s != [] && key(s[|s| - 1]) > key(x) {
      var init, last := s[..|s| - 1], s[|s| - 1];
      assert s == init + [last];
      InsertPermutes(x, init, key);
    }
  }

  /** Inserting into a sorted sequence keeps it sorted. */
  lemma {:induction false} InsertKeepsSorted<T(!new)>(x: T, s: seq<T>, key: T -> int)
    requires SortedBy(s, key)
    ensures SortedBy(Insert(x, s, key), key)
  {
    if s != [] && key(s[|s| - 1]) > key(x) {
      var init, last := s[..|s| - 1], s[|s| - 1];
      InsertKeepsSorted(x, init, key);
      InsertPermutes(x, init, key);
      var t := Insert(x, init, key);
      forall i | 0 <= i < |t| ensures key(t[i]) <= key(last) {
        assert t[i] in multiset(t);
        if t[i] != x {
          assert t[i] in multiset(init);
          var k :| 0 <= k < |init| && init[k] == t[i];
          assert s[k] == init[k];
        }
      }
      assert Insert(x, s, key) == t + [last];
    }
  }

  /** The stable sort of `s` by `key`. */
  function SortByKey<T(!new)>(s: seq<T>, key: T -> int): (r: seq<T>)
    ensures |r| == |s|
    ensures multiset(r) == multiset(s)
    ensures forall x :: x in r <==> x in s
    ensures SortedBy(r, key)
  {
    if s == [] then []
    else
      assert s == s[..|s| - 1] + [s[|s| - 1]];
      var sorted := SortByKey(s[..|s| - 1], key);
      InsertKeepsSorted(s[|s| - 1], sorted, key);
      InsertPermutes(s[|s| - 1], sorted, key);
      var r := Insert(s[|s| - 1], sorted, key);
      assert forall x :: x in r <==> x in multiset(r);
      r
  }

  /** Selects the elements whose key is `k`. */
  function KeyIs<T>(key: T -> int, k: int): (hasKey: T -> bool) {
    x => key(x) == k
  }

  /**
   * Inserting `x` puts it after every element with the same key, so among the
   * elements of one key it comes last.
   */
  lemma {:induction false} InsertKeepsEqualKeys<T(!new)>(x: T, t: seq<T>, key: T -> int, k: int)
    ensures Filter(Insert(x, t, key), KeyIs(key, k)) == Filter(t, KeyIs(key, k)) + Filter([x], KeyIs(key, k))
  {
    if t == [] || key(t[|t| - 1]) <= key(x) {
      FilterConcat(t, [x], KeyIs(key, k));
    } else {
      var init, last := t[..|t| - 1], t[|t| - 1];
      assert t == init + [last];
      InsertKeepsEqualKeys(x, init, key, k);
      EqualKeysPassGreater(x, init, last, key, k);
    }
  }

  /** The step of `InsertKeepsEqualKeys` where `x` moves left past a greater `last`. */
  lemma EqualKeysPassGreater<T(!new)>(x: T, init: seq<T>, last: T, key: T -> int, k: int)
    requires key(last) > key(x)
    requires Filter(Insert(x, init, key), KeyIs(key, k)) == Filter(init, KeyIs(key, k)) + Filter([x], KeyIs(key, k))
    ensures Filter(Insert(x, init, key) + [last], KeyIs(key, k)) == Filter(init + [last], KeyIs(key, k)) + Filter([x], KeyIs(key, k))
  {
    var p := KeyIs(key, k);
    FilterConcat(Insert(x, init, key), [last], p);
    FilterConcat(init, [last], p);
    FilterOne(x, p);
    FilterOne(last, p);
    SwapAroundEmpty(Filter(init, p), Filter([x], p), Filter([last], p));
  }

  lemma SwapAroundEmpty<T>(a: seq<T>, b: seq<T>, c: seq<T>)
    requires b == [] || c == []
    ensures a + b + c == a + c + b
  {
    if b == [] {
      assert a + b == a;
    } else {
      assert a + c == a;
    }
  }

  lemma FilterOne<T(!new)>(x: T, p: T -> bool)
    ensures Filter([x], p) == if p(x) then [x] else []
  {
    assert [x][1..] == [];
  }

  /**
   * The sort is stable: the elements with any one key come out in the order they went
   * in.
   */
  lemma {:induction false} SortByKeyIsStable<T(!new)>(s: seq<T>, key: T -> int, k: int)
    ensures Filter(SortByKey(s, key), KeyIs(key, k)) == Filter(s, KeyIs(key, k))
  {
    if s != [] {
      var init, last := s[..|s| - 1], s[|s| - 1];
      assert s == init + [last];
      SortByKeyIsStable(init, key, k);
      InsertKeepsEqualKeys(last, SortByKey(init, key), key, k);
      FilterConcat(init, [last], KeyIs(key, k));
    }
  }

  /** Sorting two elements: they are swapped exactly when the second has the smaller key. */
  lemma {:induction false} SortTwo<T(!new)>(a: T, b: T, key: T -> int)
    ensures SortByKey([a, b], key) == if key(a) <= key(b) then [a, b] else [b, a]
  {
    assert [a, b][..1] == [a];
    assert [a][..0] == [];
    assert SortByKey([a], key) == [a];
  }

  /**
   * Moves `a[i]` left past every element of the sorted prefix `a[..i]` whose key is
   * greater than its own: one pass of the insertion sort.
   */
  method InsertInPlace<T(!new)>(a: array<T>, i: nat, key: T -> int)
    requires i < a.Length
    modifies a
    ensures a[..i + 1] == Insert(old(a[i]), old(a[..i]), key)
    ensures a[i + 1..] == old(a[i + 1..])
  {
    ghost var p := a[..i];
    var x := a[i];
    var j := i;
    while j > 0 && key(a[j - 1]) > key(x)
      invariant 0 <= j <= i
      invariant forall k :: 0 <= k < j ==> a[k] == p[k]
      invariant forall k :: j < k <= i ==> a[k] == p[k - 1]
      invariant forall k :: i < k < a.Length ==> a[k] == old(a[k])
      invariant forall k :: j <= k < i ==> key(p[k]) > key(x)
    {
      a[j] := a[j - 1];
      j := j - 1;
    }
    a[j] := x;
    InsertPosition(x, p, j, key);
    assert a[..i + 1] == p[..j] + [x] + p[j..];
  }

  /**
   * `x` is inserted at position `j` when the element before `j` (if any) has a key not
   * greater than `key(x)` and every element from `j` on has a greater key.
   */
  lemma {:induction false} InsertPosition<T(!new)>(x: T, p: seq<T>, j: nat, key: T -> int)
    requires j <= |p|
    requires j == 0 || key(p[j - 1]) <= key(x)
    requires forall k :: j <= k < |p| ==> key(p[k]) > key(x)
    ensures Insert(x, p, key) == p[..j] + [x] + p[j..]
  {
    if j < |p| {
      var init, last := p[..|p| - 1], p[|p| - 1];
      assert key(last) > key(x);
      assert Insert(x, p, key) == Insert(x, init, key) + [last];
      assert forall k :: 0 <= k < |init| ==> init[k] == p[k];
      InsertPosition(x, init, j, key);
      assert init[..j] == p[..j];
      assert init[j..] + [last] == p[j..];
      assert Insert(x, p, key) == init[..j] + [x] + (init[j..] + [last]);
    } else {
      assert p[..j] == p;
    }
  }

  /**
   * Sorts `a` in place by `key` with a stable insertion sort, as `List.sort` does with
   * a comparator on that key.
   */
  method SortInPlace<T(!new)>(a: array<T>, key: T -> int)
    modifies a
    ensures a[..] == SortByKey(old(a[..]), key)
  {
    ghost var s := a[..];
    var i := 0;
    while i < a.Length
      invariant 0 <= i <= a.Length
      invariant a[..i] == SortByKey(s[..i], key)
      invariant forall k :: i <= k < a.Length ==> a[k] == s[k]
    {
      SortByKeyExtend(s, i, key);
      InsertInPlace(a, i, key);
      i := i + 1;
    }
    assert a[..] == a[..a.Length];
    assert s == s[..a.Length];
  }

  /** Sorting one more element of `s` inserts it into the sorted shorter prefix. */
  lemma SortByKeyExtend<T(!new)>(s: seq<T>, i: nat, key: T -> int)
    requires i < |s|
    ensures SortByKey(s[..i + 1], key) == Insert(s[i], SortByKey(s[..i], key), key)
  {
    assert s[..i + 1][..i] == s[..i];
  }
}
