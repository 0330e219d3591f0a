/** A sort by an integer key, standing in for `Array.prototype.sort`
    with a numeric comparator `(a, b) => key(a) - key(b)`. */
module Sorting {
  import opened Seqs

  ghost predicate SortedBy<T>(s: seq<T>, key: T -> int)
  {
    forall i, j | 0 <= i < j < |s| :: key(s[i]) <= key(s[j])
  }

  /** Every key in `s` is at least `b`. */
  ghost predicate KeysAtLeast<T>(s: seq<T>, b: int, key: T -> int)
  {
    forall i | 0 <= i < |s| :: b <= key(s[i])
  }

  /** Inserts `x` after every element whose key is not larger than its own. */
  function InsertBy<T>(x: T, s: seq<T>, key: T -> int): (r: seq<T>)
    requires SortedBy(s, key)
    ensures SortedBy(r, key)
    ensures multiset(r) == multiset(s) + multiset{x}
    ensures |r| == |s| + 1
    ensures forall b :: KeysAtLeast(s, b, key) && b <= key(x) ==> KeysAtLeast(r, b, key)
    decreases |s|
  {
    if |s| == 0 then [x]
    else if key(x) < key(s[0]) then
      assert KeysAtLeast(s, key(x), key);
      ConsSorted(x, s, key);
      ConsKeysAtLeast(x, s, key);
      [x] + s
    else
      assert s == [s[0]] + s[1..];
      assert KeysAtLeast(s[1..], key(s[0]), key);
      var rest := InsertBy(x, s[1..], key);
      ConsSorted(s[0], rest, key);
      ConsKeysAtLeast(s[0], rest, key);
      [s[0]] + rest
  }

  /** A head no larger than every key keeps a sorted list sorted. */
  lemma ConsSorted<T>(h: T, s: seq<T>, key: T -> int)
    requires SortedBy(s, key) && KeysAtLeast(s, key(h), key)
    ensures SortedBy([h] + s, key)
  {
    var r := [h] + s;
    forall i, j | 0 <= i < j < |r| ensures key(r[i]) <= key(r[j]) {
      assert r[j] == s[j - 1];
      if i > 0 {
        assert r[i] == s[i - 1];
      }
    }
  }

  /** A lower bound of the tail that the head also meets bounds the whole list. */
  lemma ConsKeysAtLeast<T>(h: T, s: seq<T>, key: T -> int)
    ensures forall b :: b <= key(h) && KeysAtLeast(s, b, key) ==> KeysAtLeast([h] + s, b, key)
  {
    forall b | b <= key(h) && KeysAtLeast(s, b, key) ensures KeysAtLeast([h] + s, b, key) {
      forall i | 0 <= i < |s| + 1 ensures b <= key(([h] + s)[i]) {
        if i > 0 {
          assert ([h] + s)[i] == s[i - 1];
        }
      }
    }
  }

  /** The elements of `s` in ascending key order. */
  function SortBy<T>(s: seq<T>, key: T -> int): (r: seq<T>)
    ensures SortedBy(r, key)
    ensures multiset(r) == multiset(s)
    ensures |r| == |s|
    decreases |s|
  {
    if |s| == 0 then []
    else
      var init := s[..|s| - 1];
      assert s == init + [s[|s| - 1]];
      InsertBy(s[|s| - 1], SortBy(init, key), key)
  }

  lemma {:induction false} DistinctCounts<T>(s: seq<T>, x: T)
    requires Distinct(s)
    ensures multiset(s)[x] <= 1
    decreases |s|
  {
    if |s| > 0 {
      assert s == [s[0]] + s[1..];
      assert Distinct(s[1..]) by {
        forall i, j | 0 <= i < j < |s| - 1 ensures s[1..][i] != s[1..][j] {
          assert s[1..][i] == s[i + 1] && s[1..][j] == s[j + 1];
        }
      }
      DistinctCounts(s[1..], x);
      if s[0] == x {
        assert x !in s[1..] by {
          forall k | 0 <= k < |s| - 1 ensures s[1..][k] != x {
            assert s[1..][k] == s[k + 1];
          }
        }
      }
    }
  }

  lemma TwoPositionsCount<T>(r: seq<T>, i: int, j: int)
    requires 0 <= i < j < |r|
    ensures r[i] == r[j] ==> multiset(r)[r[i]] >= 2
  {
    if r[i] == r[j] {
      assert r == r[..j] + r[j..];
      assert r[i] in r[..j] && r[j] in r[j..];
      assert multiset(r)[r[i]] == multiset(r[..j])[r[i]] + multiset(r[j..])[r[i]];
    }
  }

  /** A permutation of a list without repetitions has none either. */
  lemma PermutationKeepsDistinct<T>(s: seq<T>, r: seq<T>)
    requires Distinct(s) && multiset(r) == multiset(s)
    ensures Distinct(r)
  {
    forall i, j | 0 <= i < j < |r| ensures r[i] != r[j] {
      DistinctCounts(s, r[i]);
      TwoPositionsCount(r, i, j);
    }
  }

  function Id(n: int): int { n }

  /** Sorted by value and without repetitions: strictly ascending. */
  lemma SortedDistinctAscending(s: seq<int>)
    requires SortedBy(s, Id) && Distinct(s)
    ensures StrictlyAscending(s)
  {
    forall i, j | 0 <= i < j < |s| ensures Below(s[i], s[j]) {
      assert Id(s[i]) <= Id(s[j]);
    }
  }
}
