/** The order Go gives to strings, and what `sort.Slice` and `sort.SliceStable` do.

    A Go string is modelled as a Dafny `string` whose characters stand for bytes. */
module Ordering {

  // Go's `<` on strings: bytewise lexicographic.
  predicate StringLess(a: string, b: string) {
    if b == "" then false
    else if a == "" then true
    else if a[0] != b[0] then a[0] < b[0]
    else StringLess(a[1..], b[1..])
  }

  lemma {:induction false} StringLessTotal(a: string, b: string)
    ensures a == b || StringLess(a, b) || StringLess(b, a)
    ensures !(StringLess(a, b) && StringLess(b, a))
    ensures StringLess(a, b) ==> a != b
  {
    if a != "" && b != "" && a[0] == b[0] {
      StringLessTotal(a[1..], b[1..]);
      assert a == [a[0]] + a[1..] && b == [b[0]] + b[1..];
    }
  }

  lemma {:induction false} StringLessTransitive(a: string, b: string, c: string)
    requires StringLess(a, b) && StringLess(b, c)
    ensures StringLess(a, c)
  {
    if a != "" && a[0] == b[0] && b[0] == c[0] {
      StringLessTransitive(a[1..], b[1..], c[1..]);
    }
  }

  // What `sort.Slice` demands of its comparison: a strict weak order.
  ghost predicate StrictWeakOrder<T(!new)>(less: (T, T) -> bool) {
    && (forall a :: !less(a, a))
    && (forall a, b, c :: less(a, c) ==> less(a, b) || less(b, c))
    && (forall a, b :: !(less(a, b) && less(b, a)))
  }

  ghost predicate Sorted<T>(s: seq<T>, less: (T, T) -> bool) {
    forall i, j :: 0 <= i < j < |s| ==> !less(s[j], s[i])
  }

  ghost predicate Permutation<T>(s: seq<T>, t: seq<T>) {
    multiset(s) == multiset(t)
  }

  // `sort.Slice`. Callers learn that the result is some sorted permutation and
  // nothing about where equal elements end up, as in Go.
  method SortSlice<T(!new)>(s: seq<T>, less: (T, T) -> bool) returns (r: seq<T>)
    requires StrictWeakOrder(less)
    ensures Sorted(r, less)
    ensures Permutation(r, s)
  {
    r := [];
    for n := 0 to |s|
      invariant Sorted(r, less)
      invariant Permutation(r, s[..n])
    {
      var k := 0;
      while k < |r| && !less(s[n], r[k])
        invariant k <= |r|
        invariant forall i :: 0 <= i < k ==> !less(s[n], r[i])
      {
        k := k + 1;
      }
      InsertKeepsSorted(r, s[n], k, less);
      assert r == r[..k] + r[k..];
      assert s[..n + 1] == s[..n] + [s[n]];
      r := r[..k] + [s[n]] + r[k..];
    }
    assert s[..|s|] == s;
  }

  lemma InsertKeepsSorted<T(!new)>(r: seq<T>, x: T, k: nat, less: (T, T) -> bool)
    requires StrictWeakOrder(less) && Sorted(r, less)
    requires k <= |r|
    requires forall i :: 0 <= i < k ==> !less(x, r[i])
    requires k < |r| ==> less(x, r[k])
    ensures Sorted(r[..k] + [x] + r[k..], less)
  {
    var t := r[..k] + [x] + r[k..];
    forall i, j | 0 <= i < j < |t|
      ensures !less(t[j], t[i])
    {
      if i == k {
        assert t[j] == r[j - 1];  // which is at least r[k], which is above x
      }
    }
  }

  // ----- the stable sort

  function Insert<T>(r: seq<T>, x: T, less: (T, T) -> bool): (t: seq<T>)
    ensures |t| == |r| + 1
  {
    if r == [] then [x]
    else if less(x, r[|r| - 1]) then Insert(r[..|r| - 1], x, less) + [r[|r| - 1]]
    else r + [x]
  }

  // `sort.SliceStable`: a sorted permutation in which equal elements keep their order.
  function SliceStable<T>(s: seq<T>, less: (T, T) -> bool): (t: seq<T>)
    ensures |t| == |s|
  {
    if s == [] then [] else Insert(SliceStable(s[..|s| - 1], less), s[|s| - 1], less)
  }

  lemma {:induction false} InsertPermutes<T(!new)>(r: seq<T>, x: T, less: (T, T) -> bool)
    ensures Permutation(Insert(r, x, less), r + [x])
  {
    if r != [] {
      var n := |r| - 1;
      assert r == r[..n] + [r[n]];
      if less(x, r[n]) {
        InsertPermutes(r[..n], x, less);
      }
    }
  }

  lemma SortedSnoc<T(!new)>(r: seq<T>, x: T, less: (T, T) -> bool)
    requires Sorted(r, less) && forall y :: y in r ==> !less(x, y)
    ensures Sorted(r + [x], less)
  {
  }

  lemma LastIsGreatest<T(!new)>(r: seq<T>, x: T, less: (T, T) -> bool)
    requires StrictWeakOrder(less) && Sorted(r, less) && r != [] && !less(x, r[|r| - 1])
    ensures forall y :: y in r ==> !less(x, y)
  {
    var last := r[|r| - 1];
    forall y | y in r ensures !less(x, y) {
      assert less(x, y) ==> less(x, last) || less(last, y);
    }
  }

  lemma {:induction false} InsertSorts<T(!new)>(r: seq<T>, x: T, less: (T, T) -> bool)
    requires StrictWeakOrder(less) && Sorted(r, less)
    ensures Sorted(Insert(r, x, less), less)
  {
    if r != [] {
      var n := |r| - 1;
      if less(x, r[n]) {
        InsertSorts(r[..n], x, less);
        InsertPermutes(r[..n], x, less);
        PermutationMembers(Insert(r[..n], x, less), r[..n] + [x]);
        LastIsGreatest(r, r[n], less);
        SortedSnoc(Insert(r[..n], x, less), r[n], less);
      } else {
        LastIsGreatest(r, x, less);
        SortedSnoc(r, x, less);
      }
    }
  }

  lemma {:induction false} SliceStableSorts<T(!new)>(s: seq<T>, less: (T, T) -> bool)
    requires StrictWeakOrder(less)
    ensures Sorted(SliceStable(s, less), less) && Permutation(SliceStable(s, less), s)
  {
    if s != [] {
      var n := |s| - 1;
      assert s == s[..n] + [s[n]];
      SliceStableSorts(s[..n], less);
      InsertSorts(SliceStable(s[..n], less), s[n], less);
      InsertPermutes(SliceStable(s[..n], less), s[n], less);
    }
  }

  // The elements that the order does not tell from `x`.
  function Alike<T>(s: seq<T>, x: T, less: (T, T) -> bool): seq<T> {
    if s == [] then []
    else
      var y := s[|s| - 1];
      Alike(s[..|s| - 1], x, less) + if !less(x, y) && !less(y, x) then [y] else []
  }

  lemma {:induction false} InsertKeepsAlike<T(!new)>(r: seq<T>, x: T, y: T, less: (T, T) -> bool)
    requires StrictWeakOrder(less)
    ensures Alike(Insert(r, x, less), y, less) == Alike(r + [x], y, less)
  {
    assert (r + [x])[..|r|] == r;
    if r != [] && less(x, r[|r| - 1]) {
      var n := |r| - 1;
      var t := Insert(r[..n], x, less);
      InsertKeepsAlike(r[..n], x, y, less);
      assert (t + [r[n]])[..|t|] == t;
      assert (r[..n] + [x])[..n] == r[..n];
    }
  }

  lemma {:induction false} SliceStableIsStable<T(!new)>(s: seq<T>, x: T, less: (T, T) -> bool)
    requires StrictWeakOrder(less)
    ensures Alike(SliceStable(s, less), x, less) == Alike(s, x, less)
  {
    if s != [] {
      var n := |s| - 1;
      var t := SliceStable(s[..n], less);
      SliceStableIsStable(s[..n], x, less);
      InsertKeepsAlike(t, s[n], x, less);
      assert (t + [s[n]])[..|t|] == t;
    }
  }

  // ----- permutations

  lemma PermutationMembers<T>(s: seq<T>, t: seq<T>)
    requires Permutation(s, t)
    ensures |s| == |t|
    ensures forall x :: x in s <==> x in t
  {
    assert |multiset(s)| == |multiset(t)|;
    forall x ensures x in s <==> x in t {
      assert x in s <==> x in multiset(s);
      assert x in t <==> x in multiset(t);
    }
  }

  ghost predicate Distinct<T>(s: seq<T>) {
    forall i, j :: 0 <= i < j < |s| ==> s[i] != s[j]
  }

  lemma CountOfDistinct<T>(s: seq<T>, k: nat)
    requires Distinct(s) && k < |s|
    ensures multiset(s)[s[k]] == 1
  {
    var x := s[k];
    assert s == s[..k] + [x] + s[k + 1..];
    assert x !in s[..k] && x !in s[k + 1..];
  }

  lemma CountOfTwo<T>(t: seq<T>, i: nat, j: nat)
    requires i < j < |t| && t[i] == t[j]
    ensures multiset(t)[t[i]] >= 2
  {
    assert t == t[..j] + [t[j]] + t[j + 1..];
    assert t[i] in t[..j];
  }

  lemma DistinctPermutation<T>(s: seq<T>, t: seq<T>)
    requires Permutation(s, t) && Distinct(s)
    ensures Distinct(t)
  {
    PermutationMembers(s, t);
    forall i, j | 0 <= i < j < |t| ensures t[i] != t[j] {
      assert t[i] in s;
      var k :| 0 <= k < |s| && s[k] == t[i];
      CountOfDistinct(s, k);
      if t[i] == t[j] {
        CountOfTwo(t, i, j);
      }
    }
  }

}
