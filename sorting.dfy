/**
 * The stable sort behind Rust's `slice::sort_by`, as a function on sequences.
 * `before(a, b)` means that the comparator orders `a` strictly ahead of `b`;
 * elements neither of which comes before the other keep their input order.
 */
module Sorting {

  /** An irreflexive, transitive "comes strictly before" relation. */
  ghost predicate StrictOrder<T(!new)>(before: (T, T) -> bool)
  {
    (forall a :: !before(a, a)) &&
    (forall a, b, c :: before(a, b) && before(b, c) ==> before(a, c))
  }

  /** No later element comes strictly before an earlier one. */
  predicate SortedBy<T>(s: seq<T>, before: (T, T) -> bool)
  {
    forall i, j :: 0 <= i < j < |s| ==> !before(s[j], s[i])
  }

  /** Any two different elements of `s` are ordered one way or the other. */
  predicate TotalOn<T(==)>(s: seq<T>, before: (T, T) -> bool)
  {
    forall i, j :: 0 <= i < |s| && 0 <= j < |s| && s[i] != s[j] ==> before(s[i], s[j]) || before(s[j], s[i])
  }

  /** Puts `x` ahead of the first element it comes strictly before, so it lands after all its ties. */
  function Insert<T>(s: seq<T>, x: T, before: (T, T) -> bool): (r: seq<T>)
    ensures multiset(r) == multiset(s) + multiset{x}
  {
    if s == [] then [x]
    else if before(x, s[0]) then [x] + s
    else
      assert s == [s[0]] + s[1..];
      [s[0]] + Insert(s[1..], x, before)
  }

  /** Insertion sort: each element in input order is inserted after everything it does not precede. */
  function SortBy<T>(s: seq<T>, before: (T, T) -> bool): (r: seq<T>)
    ensures multiset(r) == multiset(s) && |r| == |s|
  {
    if s == [] then []
    else
      var init, last := s[..|s| - 1], s[|s| - 1];
      assert s == init + [last];
      assert multiset(s) == multiset(init) + multiset{last};
      var r := Insert(SortBy(init, before), last, before);
      assert |r| == |multiset(r)|;
      r
  }

  /** `Vec::truncate(n)`: the first `n` elements, or all of them. */
  function Take<T>(s: seq<T>, n: nat): (r: seq<T>)
    ensures |r| == if n < |s| then n else |s|
    ensures forall i :: 0 <= i < |r| ==> r[i] == s[i]
  {
    if n < |s| then s[..n] else s
  }

  lemma {:induction false} InsertSorted<T(!new)>(s: seq<T>, x: T, before: (T, T) -> bool)
    requires StrictOrder(before) && SortedBy(s, before)
    ensures SortedBy(Insert(s, x, before), before)
  {
    if s == [] {
    } else if before(x, s[0]) {
      var r := [x] + s;
      forall i, j | 0 <= i < j < |r| ensures !before(r[j], r[i]) {
        if i == 0 && j > 1 {
          assert !before(s[j - 1], s[0]);
        }
      }
    } else {
      InsertSorted(s[1..], x, before);
      var t := Insert(s[1..], x, before);
      forall k | 0 <= k < |t| ensures !before(t[k], s[0]) {
        assert t[k] in multiset(t);
        if t[k] != x {
          assert t[k] in multiset(s[1..]);
          var m :| 0 <= m < |s[1..]| && s[1..][m] == t[k];
          assert s[m + 1] == t[k];
        }
      }
      var r := [s[0]] + t;
      forall i, j | 0 <= i < j < |r| ensures !before(r[j], r[i]) {
        if i > 0 {
          assert r[i] == t[i - 1] && r[j] == t[j - 1];
        }
      }
    }
  }

  /** The result of `SortBy` is sorted. */
  lemma {:induction false} SortBySorted<T(!new)>(s: seq<T>, before: (T, T) -> bool)
    requires StrictOrder(before)
    ensures SortedBy(SortBy(s, before), before)
  {
    if s != [] {
      SortBySorted(s[..|s| - 1], before);
      InsertSorted(SortBy(s[..|s| - 1], before), s[|s| - 1], before);
    }
  }

  lemma {:induction false} MultisetTail<T>(r: seq<T>)
    requires r != []
    ensures multiset(r[1..]) == multiset(r) - multiset{r[0]}
  {
    assert r == [r[0]] + r[1..];
  }

  /**
   * Under an order that is total on the elements, there is only one sorted
   * arrangement of a multiset: sorting does not depend on the input order.
   */
  lemma {:induction false} SortedUnique<T(!new)>(r1: seq<T>, r2: seq<T>, before: (T, T) -> bool)
    requires SortedBy(r1, before) && SortedBy(r2, before)
    requires multiset(r1) == multiset(r2) && TotalOn(r1, before)
    ensures r1 == r2
  {
    if r1 != [] {
      assert r1[0] in multiset(r2);
      assert r2 != [];
      var a, b := r1[0], r2[0];
      assert b in multiset(r1);
      var i :| 0 <= i < |r1| && r1[i] == b;
      var j :| 0 <= j < |r2| && r2[j] == a;
      assert i == 0 || !before(b, a);
      assert j == 0 || !before(a, b);
      assert a == b;
      MultisetTail(r1);
      MultisetTail(r2);
      assert TotalOn(r1[1..], before) by {
        forall i, j | 0 <= i < |r1[1..]| && 0 <= j < |r1[1..]| && r1[1..][i] != r1[1..][j]
          ensures before(r1[1..][i], r1[1..][j]) || before(r1[1..][j], r1[1..][i])
        {
          assert r1[1..][i] == r1[i + 1] && r1[1..][j] == r1[j + 1];
        }
      }
      SortedUnique(r1[1..], r2[1..], before);
    } else {
      assert |r2| == |multiset(r2)| == 0;
    }
  }

  /**
   * Truncating a sorted sequence keeps a top prefix: nothing cut off comes
   * strictly before anything kept.
   */
  lemma {:induction false} TakeSortedIsTop<T>(s: seq<T>, n: nat, before: (T, T) -> bool)
    requires SortedBy(s, before)
    ensures SortedBy(Take(s, n), before)
    ensures multiset(Take(s, n)) <= multiset(s)
    ensures forall m, i :: m in multiset(s) - multiset(Take(s, n)) && 0 <= i < |Take(s, n)| ==> !before(m, Take(s, n)[i])
  {
    var r := Take(s, n);
    var k := |r|;
    assert s == r + s[k..];
    assert multiset(s) == multiset(r) + multiset(s[k..]);
    assert multiset(s) - multiset(r) == multiset(s[k..]);
    forall m, i | m in multiset(s) - multiset(r) && 0 <= i < k
      ensures !before(m, r[i])
    {
      assert m in s[k..];
      var j :| 0 <= j < |s[k..]| && s[k..][j] == m;
      assert s[k + j] == m;
    }
  }

  /** No element occurs twice. */
  predicate Distinct<T(==)>(s: seq<T>)
  {
    forall i, j :: 0 <= i < j < |s| ==> s[i] != s[j]
  }

  lemma {:induction false} DistinctCount<T>(s: seq<T>, x: T)
    requires Distinct(s)
    ensures multiset(s)[x] == if x in s then 1 else 0
  {
    if s != [] {
      var init := s[..|s| - 1];
      assert s == init + [s[|s| - 1]];
      assert Distinct(init);
      DistinctCount(init, x);
      assert s[|s| - 1] !in init;
    }
  }

  /** A permutation of a sequence without repeats has none either. */
  lemma {:induction false} DistinctPermutation<T>(a: seq<T>, b: seq<T>)
    requires Distinct(a) && multiset(a) == multiset(b)
    ensures Distinct(b)
  {
    forall i, j | 0 <= i < j < |b| ensures b[i] != b[j] {
      assert b == b[..j] + b[j..];
      assert multiset(b) == multiset(b[..j]) + multiset(b[j..]);
      assert b[i] in b[..j] && b[j] in b[j..];
      DistinctCount(a, b[i]);
    }
  }

  /** Two sequences without repeats and with the same elements are permutations of each other. */
  lemma {:induction false} DistinctSameElements<T>(a: seq<T>, b: seq<T>)
    requires Distinct(a) && Distinct(b)
    requires forall x :: x in a <==> x in b
    ensures multiset(a) == multiset(b)
  {
    forall x ensures multiset(a)[x] == multiset(b)[x] {
      DistinctCount(a, x);
      DistinctCount(b, x);
    }
  }
}
