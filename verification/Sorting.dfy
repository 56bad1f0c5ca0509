/** Python's stable `sorted` with a comparison given by a key's total order. */
module Sorting {
  /** An order on keys: different values may share a key. */
  ghost predicate KeyOrder<T(!new)>(leq: (T, T) -> bool) {
    && (forall x, y :: leq(x, y) || leq(y, x))
    && (forall x, y, z :: leq(x, y) && leq(y, z) ==> leq(x, z))
  }

  ghost predicate TotalOrder<T(!new)>(leq: (T, T) -> bool) {
    KeyOrder(leq) && forall x, y :: leq(x, y) && leq(y, x) ==> x == y
  }

  ghost predicate SortedBy<T(!new)>(leq: (T, T) -> bool, xs: seq<T>) {
    forall i, j | 0 <= i < j < |xs| :: leq(xs[i], xs[j])
  }

  function Insert<T>(leq: (T, T) -> bool, x: T, xs: seq<T>): seq<T> {
    if xs == [] || leq(x, xs[0]) then [x] + xs else [xs[0]] + Insert(leq, x, xs[1..])
  }

  function Sorted<T>(leq: (T, T) -> bool, xs: seq<T>): seq<T> {
    if xs == [] then [] else Insert(leq, xs[0], Sorted(leq, xs[1..]))
  }

  lemma {:induction false} InsertKeeps<T(!new)>(leq: (T, T) -> bool, x: T, xs: seq<T>)
    requires KeyOrder(leq) && SortedBy(leq, xs)
    ensures SortedBy(leq, Insert(leq, x, xs))
    ensures multiset(Insert(leq, x, xs)) == multiset(xs) + multiset{x}
  {
    if xs != [] {
      assert xs == [xs[0]] + xs[1..];
    }
    if xs != [] && !leq(x, xs[0]) {
      var rest := Insert(leq, x, xs[1..]);
      InsertKeeps(leq, x, xs[1..]);
      forall y | y in rest ensures leq(xs[0], y) {
        assert y in multiset(rest);
        if y != x {
          assert y in xs[1..];
        }
      }
    } else if xs != [] {
      forall j | 0 <= j < |xs| ensures leq(x, xs[j]) {
        assert j > 0 ==> leq(xs[0], xs[j]);
      }
    }
  }

  lemma {:induction false} SortedSorts<T(!new)>(leq: (T, T) -> bool, xs: seq<T>)
    requires KeyOrder(leq)
    ensures SortedBy(leq, Sorted(leq, xs)) && multiset(Sorted(leq, xs)) == multiset(xs)
  {
    if xs != [] {
      SortedSorts(leq, xs[1..]);
      InsertKeeps(leq, xs[0], Sorted(leq, xs[1..]));
      assert xs == [xs[0]] + xs[1..];
    }
  }

  lemma HeadIsLeast<T(!new)>(leq: (T, T) -> bool, a: seq<T>, x: T)
    requires TotalOrder(leq) && SortedBy(leq, a) && x in multiset(a)
    ensures leq(a[0], x)
  {
    var i :| 0 <= i < |a| && a[i] == x;
    assert i > 0 ==> leq(a[0], a[i]);
  }

  lemma {:induction false} SortedIsUnique<T(!new)>(leq: (T, T) -> bool, a: seq<T>, b: seq<T>)
    requires TotalOrder(leq) && SortedBy(leq, a) && SortedBy(leq, b) && multiset(a) == multiset(b)
    ensures a == b
  {
    assert |multiset(a)| == |a| && |multiset(b)| == |b|;
    if a != [] {
      assert a[0] == b[0] by {
        assert a[0] in multiset(a) && b[0] in multiset(b);
        HeadIsLeast(leq, a, b[0]);
        HeadIsLeast(leq, b, a[0]);
      }
      assert a == [a[0]] + a[1..] && b == [b[0]] + b[1..];
      assert multiset(a[1..]) == multiset(a) - multiset{a[0]} == multiset(b[1..]);
      SortedIsUnique(leq, a[1..], b[1..]);
    }
  }

  /** Sorting is a canonical form: two lists sort alike exactly when they are permutations. */
  lemma SortedEqualIffPermutation<T(!new)>(leq: (T, T) -> bool, a: seq<T>, b: seq<T>)
    requires TotalOrder(leq)
    ensures Sorted(leq, a) == Sorted(leq, b) <==> multiset(a) == multiset(b)
  {
    SortedSorts(leq, a);
    SortedSorts(leq, b);
    if multiset(a) == multiset(b) {
      SortedIsUnique(leq, Sorted(leq, a), Sorted(leq, b));
    }
  }

  /** Pigeonhole: as many rows as distinct expected ones, covering them all, is a permutation. */
  lemma {:induction false} DistinctCoverIsPermutation<T>(expected: seq<T>, actual: seq<T>)
    requires forall i, j | 0 <= i < j < |expected| :: expected[i] != expected[j]
    requires |actual| == |expected| && forall m | m in expected :: m in actual
    ensures multiset(actual) == multiset(expected)
  {
    if expected != [] {
      var m := expected[0];
      assert m in expected;
      var k :| 0 <= k < |actual| && actual[k] == m;
      var rest := actual[..k] + actual[k + 1..];
      assert actual == actual[..k] + [m] + actual[k + 1..];
      forall x | x in expected[1..] ensures x in rest {
        assert x in expected && x != m;
      }
      DistinctCoverIsPermutation(expected[1..], rest);
      assert expected == [m] + expected[1..];
    }
  }
}
