/** `Array.prototype.sort` with a comparator, as an insertion sort on sequences.
    A comparator follows the JavaScript convention: a result `<= 0` lets `a` stand before `b`. */
module Sorting {

  /** The comparator admits `a` before `b`. */
  predicate Before<T>(cmp: (T, T) -> int, a: T, b: T) {
    cmp(a, b) <= 0
  }

  /** "may stand before" is total and transitive. */
  ghost predicate TotalPreorder<T(!new)>(cmp: (T, T) -> int) {
    && (forall a, b :: Before(cmp, a, b) || Before(cmp, b, a))
    && (forall a, b, c :: Before(cmp, a, b) && Before(cmp, b, c) ==> Before(cmp, a, c))
  }

  /** A consistent comparator in the sense of `Array.prototype.sort`: a total preorder in which
      swapping the arguments flips the sign of a non-zero result. */
  ghost predicate Consistent<T(!new)>(cmp: (T, T) -> int) {
    && (forall a, b :: cmp(a, b) < 0 <==> cmp(b, a) > 0)
    && TotalPreorder(cmp)
  }

  /** Every element may stand before every later one. */
  ghost predicate SortedBy<T>(cmp: (T, T) -> int, s: seq<T>) {
    forall i, j :: 0 <= i < j < |s| ==> Before(cmp, s[i], s[j])
  }

  /** Sorting two elements, the first of which must stand strictly after the second, swaps them. */
  lemma SortedPairOrder<T>(s: seq<T>, r: seq<T>, cmp: (T, T) -> int)
    requires |s| == 2 && multiset(r) == multiset(s)
    requires SortedBy(cmp, r) && cmp(s[0], s[1]) > 0
    ensures r == [s[1], s[0]]
  {
    assert s == [s[0], s[1]];
    assert |r| == 2 && r == [r[0], r[1]];
    assert r[0] in multiset(r);
    if r[0] != s[0] {
      assert multiset{r[1]} == multiset(r) - multiset{s[1]} == multiset{s[0]};
    }
  }

  /** Puts `x` in front of the first element it may stand before. */
  function Insert<T(==)>(x: T, s: seq<T>, cmp: (T, T) -> int): (r: seq<T>)
    ensures multiset(r) == multiset(s) + multiset{x}
    ensures |r| == |s| + 1
    decreases |s|
  {
    if |s| == 0 then [x]
    else if Before(cmp, x, s[0]) then [x] + s
    else
      assert s == [s[0]] + s[1..];
      [s[0]] + Insert(x, s[1..], cmp)
  }

  /** The input reordered under `cmp`; when `cmp` is consistent the result is sorted by it. */
  function Sort<T(==,!new)>(s: seq<T>, cmp: (T, T) -> int): (r: seq<T>)
    ensures multiset(r) == multiset(s)
    ensures |r| == |s|
    ensures TotalPreorder(cmp) ==> SortedBy(cmp, r)
    decreases |s|
  {
    if |s| == 0 then []
    else
      assert s == [s[0]] + s[1..];
      var rest := Sort(s[1..], cmp);
      InsertSorted(s[0], rest, cmp);
      Insert(s[0], rest, cmp)
  }

  /** Inserting into a sorted sequence keeps it sorted under a consistent comparator. */
  lemma {:induction false} InsertSorted<T(!new)>(x: T, s: seq<T>, cmp: (T, T) -> int)
    ensures TotalPreorder(cmp) && SortedBy(cmp, s) ==> SortedBy(cmp, Insert(x, s, cmp))
    decreases |s|
  {
    if TotalPreorder(cmp) && SortedBy(cmp, s) && |s| > 0 {
      if Before(cmp, x, s[0]) {
        forall y | y in s
          ensures Before(cmp, x, y)
        {
          var k :| 0 <= k < |s| && s[k] == y;
          if k > 0 {
            assert Before(cmp, s[0], s[k]);
          }
        }
        ConsSorted(x, s, cmp);
      } else {
        var rest := Insert(x, s[1..], cmp);
        assert SortedBy(cmp, s[1..]) by {
          forall i, j | 0 <= i < j < |s[1..]|
            ensures Before(cmp, s[1..][i], s[1..][j])
          {
            assert s[1..][i] == s[i + 1] && s[1..][j] == s[j + 1];
          }
        }
        InsertSorted(x, s[1..], cmp);
        forall y | y in rest
          ensures Before(cmp, s[0], y)
        {
          assert y in multiset(rest);
          if y != x {
            assert y in multiset(s[1..]);
            var k :| 0 <= k < |s[1..]| && s[1..][k] == y;
            assert s[k + 1] == y;
          }
        }
        ConsSorted(s[0], rest, cmp);
      }
    }
  }

  /** Putting in front of a sorted sequence an element that may stand before all of it keeps
      it sorted. */
  lemma ConsSorted<T>(y: T, s: seq<T>, cmp: (T, T) -> int)
    requires SortedBy(cmp, s)
    requires forall z | z in s :: Before(cmp, y, z)
    ensures SortedBy(cmp, [y] + s)
  {
    var r := [y] + s;
    forall i, j | 0 <= i < j < |r|
      ensures Before(cmp, r[i], r[j])
    {
      assert r[j] == s[j - 1];
      if i > 0 {
        assert r[i] == s[i - 1];
      }
    }
  }
}
