/**
 * Sequence utilities shared by the resampler and the dashboard: an
 * order-preserving filter, an in-place insertion sort with a comparator
 * (JavaScript's `Array.prototype.sort`, used with a numeric key or with the
 * default string order), and the facts that rearranging a sequence
 * rearranges its image and that a strictly ascending sequence is the only
 * sorted arrangement of its elements.
 */
module Seqs {

  /** The elements of `s` that satisfy `keep`, in their original order. */
  function Filter<T(!new)>(s: seq<T>, keep: T -> bool): (r: seq<T>)
    ensures |r| <= |s|
    ensures forall x :: x in r <==> x in s && keep(x)
  {
    if s == [] then []
    else
      var init := Filter(s[..|s| - 1], keep);
      var last := s[|s| - 1];
      assert forall x :: x in s <==> x in s[..|s| - 1] || x == last;
      if keep(last) then init + [last] else init
  }

  /** `s.map(f)`. */
  function Map<T, U>(s: seq<T>, f: T -> U): (r: seq<U>)
    ensures |r| == |s|
    ensures forall i :: 0 <= i < |s| ==> r[i] == f(s[i])
  {
    seq(|s|, i requires 0 <= i < |s| => f(s[i]))
  }

  /** Mapping distributes over concatenation. */
  lemma MapAppend<T, U>(a: seq<T>, b: seq<T>, f: T -> U)
    ensures Map(a + b, f) == Map(a, f) + Map(b, f)
  {
  }

  /** Dropping a prefix commutes with mapping. */
  lemma MapSuffix<T, U>(s: seq<T>, f: T -> U, d: int)
    requires 0 <= d <= |s|
    ensures Map(s, f)[d..] == Map(s[d..], f)
  {
  }

  /** Every element of a suffix of a mapped sequence is the image of an element at or after the cut. */
  lemma MapSuffixMember<T, U>(s: seq<T>, f: T -> U, d: int, y: U)
    requires 0 <= d <= |s|
    requires y in Map(s, f)[d..]
    ensures exists i :: d <= i < |s| && y == f(s[i])
  {
    var k :| 0 <= k < |s| - d && Map(s, f)[d..][k] == y;
    assert y == f(s[d + k]);
  }

  /** A map that carries key `k` to key `k'` carries strict ascent along. */
  lemma MapAscending<T, U>(s: seq<T>, f: T -> U, k: T -> int, k': U -> int)
    requires forall i :: 0 <= i < |s| ==> k'(f(s[i])) == k(s[i])
    requires StrictlyAscendingBy(s, k)
    ensures StrictlyAscendingBy(Map(s, f), k')
  {
  }

  /** A filter that keeps no element returns nothing. */
  lemma {:induction false} FilterKeepsNone<T(!new)>(s: seq<T>, keep: T -> bool)
    requires forall k :: 0 <= k < |s| ==> !keep(s[k])
    ensures Filter(s, keep) == []
  {
    if s != [] {
      FilterKeepsNone(s[..|s| - 1], keep);
    }
  }

  /** A filter that keeps every element returns its input. */
  lemma {:induction false} FilterKeepsAll<T(!new)>(s: seq<T>, keep: T -> bool)
    requires forall k :: 0 <= k < |s| ==> keep(s[k])
    ensures Filter(s, keep) == s
  {
    if s != [] {
      FilterKeepsAll(s[..|s| - 1], keep);
      assert s[..|s| - 1] + [s[|s| - 1]] == s;
    }
  }

  /** A filter that keeps exactly the positions `lo` to `hi` returns that slice. */
  lemma FilterKeepsSlice<T(!new)>(s: seq<T>, keep: T -> bool, lo: int, hi: int)
    requires 0 <= lo <= hi <= |s|
    requires forall k :: 0 <= k < |s| ==> (keep(s[k]) <==> lo <= k < hi)
    ensures Filter(s, keep) == s[lo..hi]
  {
    FilterOnSlice(s, keep, lo, hi, 0, lo);
    FilterOnSlice(s, keep, lo, hi, lo, hi);
    FilterOnSlice(s, keep, lo, hi, hi, |s|);
    FilterThreeSlices(s, keep, lo, hi);
  }

  /** A filter that drops the outer slices and keeps the middle one returns the middle one. */
  lemma FilterThreeSlices<T(!new)>(s: seq<T>, keep: T -> bool, lo: int, hi: int)
    requires 0 <= lo <= hi <= |s|
    requires Filter(s[0..lo], keep) == [] && Filter(s[hi..|s|], keep) == []
    requires Filter(s[lo..hi], keep) == s[lo..hi]
    ensures Filter(s, keep) == s[lo..hi]
  {
    var a, b, c := s[0..lo], s[lo..hi], s[hi..|s|];
    SplitThree(s, lo, hi);
    FilterAppend(a + b, c, keep);
    FilterAppend(a, b, keep);
    assert Filter(s, keep) == Filter(a, keep) + Filter(b, keep) + Filter(c, keep);
  }

  lemma SplitThree<T>(s: seq<T>, i: int, j: int)
    requires 0 <= i <= j <= |s|
    ensures s == s[0..i] + s[i..j] + s[j..|s|]
  {
  }

  /**
   * Under a filter that keeps exactly the positions `lo` to `hi`, a slice
   * inside that range is kept whole and a slice outside it is dropped.
   */
  lemma FilterOnSlice<T(!new)>(s: seq<T>, keep: T -> bool, lo: int, hi: int, i: int, j: int)
    requires 0 <= lo <= hi <= |s|
    requires forall k :: 0 <= k < |s| ==> (keep(s[k]) <==> lo <= k < hi)
    requires 0 <= i <= j <= |s| && ((lo <= i && j <= hi) || j <= lo || hi <= i)
    ensures Filter(s[i..j], keep) == if lo <= i && j <= hi then s[i..j] else []
  {
    var t := s[i..j];
    forall k | 0 <= k < |t| ensures t[k] == s[i + k] {
    }
    if lo <= i && j <= hi {
      FilterKeepsAll(t, keep);
    } else {
      FilterKeepsNone(t, keep);
    }
  }

  /** Filtering distributes over concatenation: order is preserved. */
  lemma {:induction false} FilterAppend<T(!new)>(a: seq<T>, b: seq<T>, keep: T -> bool)
    ensures Filter(a + b, keep) == Filter(a, keep) + Filter(b, keep)
  {
    if b == [] {
      assert a + b == a;
    } else {
      var b' := b[..|b| - 1];
      assert (a + b)[..|a + b| - 1] == a + b';
      FilterAppend(a, b', keep);
    }
  }

  /** Two filters that agree on every element of `s` select the same subsequence. */
  lemma {:induction false} FilterCongruent<T(!new)>(s: seq<T>, keep: T -> bool, keep': T -> bool)
    requires forall k :: 0 <= k < |s| ==> keep(s[k]) == keep'(s[k])
    ensures Filter(s, keep) == Filter(s, keep')
  {
    if s != [] {
      FilterCongruent(s[..|s| - 1], keep, keep');
    }
  }

  /** Filtering a single element keeps it exactly when it satisfies `keep`. */
  lemma FilterSingleton<T(!new)>(x: T, keep: T -> bool)
    ensures Filter([x], keep) == if keep(x) then [x] else []
  {
    assert [x][..0] == [];
  }

  /** Appending an element whose key exceeds every key keeps a sequence strictly ascending. */
  lemma AscendingSnoc<T>(s: seq<T>, x: T, key: T -> int)
    requires StrictlyAscendingBy(s, key)
    requires forall i :: 0 <= i < |s| ==> key(s[i]) < key(x)
    ensures StrictlyAscendingBy(s + [x], key)
  {
  }

  /** Keys never decrease along `s`. */
  ghost predicate SortedBy<T>(s: seq<T>, key: T -> int) {
    forall i, j :: 0 <= i < j < |s| ==> key(s[i]) <= key(s[j])
  }

  /** Filtering a sorted sequence leaves it sorted. */
  lemma {:induction false} FilterSorted<T(!new)>(s: seq<T>, keep: T -> bool, key: T -> int)
    requires SortedBy(s, key)
    ensures SortedBy(Filter(s, keep), key)
  {
    if s != [] {
      var init, last := s[..|s| - 1], s[|s| - 1];
      FilterSorted(init, keep, key);
      forall x | x in init
        ensures key(x) <= key(last)
      {
        var k :| 0 <= k < |init| && init[k] == x;
        assert s[k] == x;
      }
    }
  }

  /** Keys strictly increase along `s`. */
  ghost predicate StrictlyAscendingBy<T>(s: seq<T>, key: T -> int) {
    forall i, j :: 0 <= i < j < |s| ==> key(s[i]) < key(s[j])
  }

  /**
   * Sorts `a` in place by ascending `key`, as `a.sort((x, y) => key(x) - key(y))`
   * does; the result is a rearrangement of the original elements.
   */
  method SortBy<T(!new)>(a: array<T>, key: T -> int)
    modifies a
    ensures SortedBy(a[..], key)
    ensures multiset(a[..]) == old(multiset(a[..]))
  {
    var less := (x: T, y: T) => key(x) < key(y);
    assert StrictWeakOrder(less);
    SortWith(a, less);
  }

  /**
   * Copies `s` into a fresh array and sorts it there, as sorting the array
   * that a local `push` loop produced does.
   */
  method SortedCopy<T(!new)>(s: seq<T>, key: T -> int) returns (r: seq<T>)
    ensures SortedBy(r, key)
    ensures multiset(r) == multiset(s)
  {
    var a := new T[|s|](k requires 0 <= k < |s| => s[k]);
    assert a[..] == s;
    SortBy(a, key);
    r := a[..];
  }

  /** Exchanges `a[j - 1]` and `a[j]`. */
  method SwapAdjacent<T>(a: array<T>, j: int)
    requires 0 < j < a.Length
    modifies a
    ensures a[..] == old(a[..])[j - 1 := old(a[j])][j := old(a[j - 1])]
    ensures multiset(a[..]) == old(multiset(a[..]))
  {
    a[j - 1], a[j] := a[j], a[j - 1];
  }

  // ----- sorting with a comparator -----

  /**
   * `less` orders its type the way a sort comparator must: never both ways,
   * and whatever lies strictly between two elements is comparable with one
   * of them (so "neither is less" is an equivalence).
   */
  ghost predicate StrictWeakOrder<T(!new)>(less: (T, T) -> bool) {
    && (forall x, y :: less(x, y) ==> !less(y, x))
    && (forall x, y, z :: less(x, z) ==> less(x, y) || less(y, z))
  }

  /** No element of `s` is less than an element before it. */
  ghost predicate SortedWith<T>(s: seq<T>, less: (T, T) -> bool) {
    forall i, j :: 0 <= i < j < |s| ==> !less(s[j], s[i])
  }

  /** Sorts `a` in place by the comparator `less`, as `a.sort()` does with its default string order. */
  method SortWith<T(!new)>(a: array<T>, less: (T, T) -> bool)
    requires StrictWeakOrder(less)
    modifies a
    ensures SortedWith(a[..], less)
    ensures multiset(a[..]) == old(multiset(a[..]))
  {
    var i := 0;
    while i < a.Length
      invariant 0 <= i <= a.Length
      invariant SortedWith(a[..i], less)
      invariant multiset(a[..]) == old(multiset(a[..]))
    {
      InsertWith(a, i, less);
      i := i + 1;
    }
    assert a[..a.Length] == a[..];
  }

  /** Copies `s` into a fresh array and sorts it there by `less`. */
  method SortedCopyWith<T(!new)>(s: seq<T>, less: (T, T) -> bool) returns (r: seq<T>)
    requires StrictWeakOrder(less)
    ensures SortedWith(r, less)
    ensures multiset(r) == multiset(s)
  {
    var a := new T[|s|](k requires 0 <= k < |s| => s[k]);
    assert a[..] == s;
    SortWith(a, less);
    r := a[..];
  }

  /** Moves `a[i]` left past every element greater than it, leaving `a[..i + 1]` sorted by `less`. */
  method InsertWith<T(!new)>(a: array<T>, i: int, less: (T, T) -> bool)
    requires StrictWeakOrder(less)
    requires 0 <= i < a.Length
    requires SortedWith(a[..i], less)
    modifies a
    ensures SortedWith(a[..i + 1], less)
    ensures multiset(a[..]) == old(multiset(a[..]))
  {
    var j := i;
    while j > 0 && less(a[j], a[j - 1])
      invariant 0 <= j <= i
      invariant forall p, q :: 0 <= p < q <= i && q != j ==> !less(a[q], a[p])
      invariant forall q :: j < q <= i ==> less(a[j], a[q])
      invariant multiset(a[..]) == old(multiset(a[..]))
    {
      SwapAdjacent(a, j);
      j := j - 1;
    }
  }

  /**
   * Two arrangements of the same elements: the last element of `a` sits at
   * some index `i` of `b`, and the rest of `a` is an arrangement of the rest of `b`.
   */
  lemma MatchLast<T>(a: seq<T>, b: seq<T>) returns (i: int)
    requires a != [] && multiset(a) == multiset(b)
    ensures 0 <= i < |b| && b[i] == a[|a| - 1]
    ensures b == b[..i] + [b[i]] + b[i + 1..]
    ensures multiset(a[..|a| - 1]) == multiset(b[..i] + b[i + 1..])
  {
    var x, a' := a[|a| - 1], a[..|a| - 1];
    assert a == a' + [x];
    assert x in multiset(b);
    i :| 0 <= i < |b| && b[i] == x;
    var b' := b[..i] + b[i + 1..];
    assert b == b[..i] + [x] + b[i + 1..];
    assert multiset(b) == multiset(b[..i]) + multiset{x} + multiset(b[i + 1..]);
    assert multiset(b') == multiset(b[..i]) + multiset(b[i + 1..]);
    assert multiset(a) == multiset(a') + multiset{x};
    assert multiset(a') == multiset(a) - multiset{x};
    assert multiset(b') == multiset(b) - multiset{x};
  }

  /** Rearranging the input of a map rearranges its output the same way. */
  lemma {:induction false} MapPermutation<T, U>(a: seq<T>, b: seq<T>, f: T -> U)
    requires multiset(a) == multiset(b)
    ensures multiset(Map(a, f)) == multiset(Map(b, f))
    decreases |a|
  {
    assert |a| == |multiset(a)| == |multiset(b)| == |b|;
    if a != [] {
      var i := MatchLast(a, b);
      var x, a' := a[|a| - 1], a[..|a| - 1];
      assert a == a' + [x];
      MapPermutation(a', b[..i] + b[i + 1..], f);
      MapAppend(a', [x], f);
      MapAppend(b[..i], [x], f);
      MapAppend(b[..i] + [x], b[i + 1..], f);
      MapAppend(b[..i], b[i + 1..], f);
    }
  }

  /**
   * A sequence that is strictly ascending by `key` is the only sorted
   * arrangement of its elements: sorting it again changes nothing.
   */
  lemma {:induction false} SortedPermutationUnique<T>(a: seq<T>, b: seq<T>, key: T -> int)
    requires StrictlyAscendingBy(a, key)
    requires SortedBy(b, key)
    requires multiset(a) == multiset(b)
    ensures a == b
  {
    assert |a| == |multiset(a)| == |multiset(b)| == |b|;
    if a != [] {
      HeadsAgree(a, b, key);
      MultisetTail(a);
      MultisetTail(b);
      SortedPermutationUnique(a[1..], b[1..], key);
    }
  }

  /** Both arrangements start with the element of least key. */
  lemma HeadsAgree<T>(a: seq<T>, b: seq<T>, key: T -> int)
    requires a != [] && b != []
    requires StrictlyAscendingBy(a, key)
    requires SortedBy(b, key)
    requires multiset(a) == multiset(b)
    ensures a[0] == b[0]
  {
    assert b[0] in multiset(a);
    assert a[0] in multiset(b);
    var i :| 0 <= i < |a| && a[i] == b[0];
    var k :| 0 <= k < |b| && b[k] == a[0];
    assert key(a[i]) <= key(a[0]) by {
      assert key(b[0]) <= key(b[k]);
    }
    assert i == 0;
  }

  /** Dropping the head removes one copy of it from the multiset. */
  lemma MultisetTail<T>(s: seq<T>)
    requires s != []
    ensures multiset(s[1..]) == multiset(s) - multiset{s[0]}
  {
    assert s == [s[0]] + s[1..];
  }
}
