/** Sequence operations the source performs with `Array.prototype` methods:
    `filter`, `flatMap`, `reduce` (sums), `find`, and index-based removal. */
module Seqs {

  /** `a` is an order-preserving subsequence of `b`. */
  ghost predicate IsSubsequence<T>(a: seq<T>, b: seq<T>)
    decreases |b|
  {
    if |b| == 0 then |a| == 0
    else IsSubsequence(a, b[1..]) || (|a| > 0 && a[0] == b[0] && IsSubsequence(a[1..], b[1..]))
  }

  /** No element occurs twice. */
  ghost predicate Distinct<T>(s: seq<T>)
  {
    forall i, j | 0 <= i < j < |s| :: s[i] != s[j]
  }

  /** `Array.prototype.filter`. */
  function Filter<T(!new)>(s: seq<T>, p: T -> bool): (r: seq<T>)
    ensures |r| <= |s|
    ensures forall x :: x in r <==> x in s && p(x)
    decreases |s|
  {
    if |s| == 0 then []
    else
      var rest := Filter(s[1..], p);
      if p(s[0]) then
        assert ([s[0]] + rest)[1..] == rest;
        [s[0]] + rest
      else
        assert [] + rest == rest;
        [] + rest
  }

  /** `filter` keeps the order of what it keeps. */
  lemma {:induction false} FilterIsSubsequence<T(!new)>(s: seq<T>, p: T -> bool)
    ensures IsSubsequence(Filter(s, p), s)
    decreases |s|
  {
    if |s| > 0 {
      var rest := Filter(s[1..], p);
      FilterIsSubsequence(s[1..], p);
      if p(s[0]) {
        assert Filter(s, p) == [s[0]] + rest;
        assert ([s[0]] + rest)[1..] == rest;
      } else {
        assert Filter(s, p) == rest;
      }
    }
  }

  /** `x` as a one-element list when it passes `p`, else nothing. */
  function KeepIf<T>(x: T, p: T -> bool): seq<T>
  {
    if p(x) then [x] else []
  }

  /** One step of `Filter`: the head, if it passes, before the filtered tail. */
  lemma FilterCons<T(!new)>(s: seq<T>, p: T -> bool)
    requires |s| > 0
    ensures Filter(s, p) == KeepIf(s[0], p) + Filter(s[1..], p)
  {
  }

  /** Filtering a list with a known head. */
  lemma FilterPrepend<T(!new)>(x: T, s: seq<T>, p: T -> bool)
    ensures Filter([x] + s, p) == KeepIf(x, p) + Filter(s, p)
  {
    assert ([x] + s)[0] == x && ([x] + s)[1..] == s;
  }

  lemma {:induction false} FilterAppend<T(!new)>(a: seq<T>, b: seq<T>, p: T -> bool)
    ensures Filter(a + b, p) == Filter(a, p) + Filter(b, p)
    decreases |a|
  {
    if |a| == 0 {
      assert a + b == b;
    } else {
      var x, t := a[0], a[1..];
      assert a == [x] + t && a + b == [x] + (t + b);
      calc {
        Filter(a + b, p);
        { FilterPrepend(x, t + b, p); }
        KeepIf(x, p) + Filter(t + b, p);
        { FilterAppend(t, b, p); }
        KeepIf(x, p) + (Filter(t, p) + Filter(b, p));
        (KeepIf(x, p) + Filter(t, p)) + Filter(b, p);
        { FilterPrepend(x, t, p); }
        Filter(a, p) + Filter(b, p);
      }
    }
  }

  /** Filtering keeps everything when every element passes. */
  lemma {:induction false} FilterAll<T(!new)>(s: seq<T>, p: T -> bool)
    requires forall i | 0 <= i < |s| :: p(s[i])
    ensures Filter(s, p) == s
    decreases |s|
  {
    if |s| > 0 {
      FilterAll(s[1..], p);
    }
  }

  /** Filtering keeps nothing when no element passes. */
  lemma {:induction false} FilterNone<T(!new)>(s: seq<T>, p: T -> bool)
    requires forall i | 0 <= i < |s| :: !p(s[i])
    ensures Filter(s, p) == []
    decreases |s|
  {
    if |s| > 0 {
      FilterNone(s[1..], p);
    }
  }

  lemma {:induction false} FilterDistinct<T(!new)>(s: seq<T>, p: T -> bool)
    requires Distinct(s)
    ensures Distinct(Filter(s, p))
    decreases |s|
  {
    if |s| > 0 {
      FilterDistinct(s[1..], p);
      var rest := Filter(s[1..], p);
      if p(s[0]) {
        assert s[0] !in s[1..] by {
          forall k | 0 <= k < |s| - 1 ensures s[1..][k] != s[0] {
            assert s[1..][k] == s[k + 1];
          }
        }
        assert s[0] !in rest;
        var r := [s[0]] + rest;
        forall i, j | 0 <= i < j < |r| ensures r[i] != r[j] {
          if i == 0 {
            assert r[j] == rest[j - 1];
            assert r[j] in rest;
          } else {
            assert r[i] == rest[i - 1] && r[j] == rest[j - 1];
          }
        }
      }
    }
  }

  /** Filtering out a single rejected element is removing it by index. */
  lemma FilterDropsOne<T(!new)>(s: seq<T>, k: int, p: T -> bool)
    requires 0 <= k < |s| && !p(s[k])
    requires forall i | 0 <= i < |s| && i != k :: p(s[i])
    ensures Filter(s, p) == s[..k] + s[k + 1..]
  {
    AroundIndex(s, k, p, s[..k], s[k + 1..]);
    FilterAroundRejected(s[..k], s[k], s[k + 1..], p);
  }

  /** The parts before and after position `k`, when every other element passes. */
  lemma AroundIndex<T>(s: seq<T>, k: int, p: T -> bool, pre: seq<T>, post: seq<T>)
    requires 0 <= k < |s| && pre == s[..k] && post == s[k + 1..]
    requires forall i | 0 <= i < |s| && i != k :: p(s[i])
    ensures s == pre + [s[k]] + post
    ensures forall i | 0 <= i < |pre| :: p(pre[i])
    ensures forall i | 0 <= i < |post| :: p(post[i])
  {
    forall i | 0 <= i < |pre| ensures p(pre[i]) {
      assert pre[i] == s[i];
    }
    forall i | 0 <= i < |post| ensures p(post[i]) {
      assert post[i] == s[k + 1 + i];
    }
  }

  lemma FilterAroundRejected<T(!new)>(pre: seq<T>, x: T, post: seq<T>, p: T -> bool)
    requires !p(x)
    requires forall i | 0 <= i < |pre| :: p(pre[i])
    requires forall i | 0 <= i < |post| :: p(post[i])
    ensures Filter(pre + [x] + post, p) == pre + post
  {
    var front := pre + [x];
    assert Filter(front, p) == pre by {
      FilterAppend(pre, [x], p);
      FilterAll(pre, p);
      assert Filter([x], p) == [];
    }
    FilterAppend(front, post, p);
    FilterAll(post, p);
  }

  /** `ok` holds of every pair of elements taken in list order. */
  ghost predicate Pairwise<T>(s: seq<T>, ok: (T, T) -> bool)
  {
    forall i, j | 0 <= i < j < |s| :: ok(s[i], s[j])
  }

  lemma {:induction false} FilterPairwise<T(!new)>(s: seq<T>, p: T -> bool, ok: (T, T) -> bool)
    requires Pairwise(s, ok)
    ensures Pairwise(Filter(s, p), ok)
    decreases |s|
  {
    if |s| > 0 {
      assert Pairwise(s[1..], ok) by {
        forall i, j | 0 <= i < j < |s| - 1 ensures ok(s[1..][i], s[1..][j]) {
          assert s[1..][i] == s[i + 1] && s[1..][j] == s[j + 1];
        }
      }
      FilterPairwise(s[1..], p, ok);
      var rest := Filter(s[1..], p);
      if p(s[0]) {
        var r := [s[0]] + rest;
        forall i, j | 0 <= i < j < |r| ensures ok(r[i], r[j]) {
          if i == 0 {
            assert r[j] == rest[j - 1] && r[j] in s[1..];
            var k :| 0 <= k < |s| - 1 && s[1..][k] == r[j];
            assert s[1..][k] == s[k + 1];
          } else {
            assert r[i] == rest[i - 1] && r[j] == rest[j - 1];
          }
        }
      }
    }
  }

  /** Filtering with two predicates that agree on the elements gives the same list. */
  lemma {:induction false} FilterCongruent<T(!new)>(s: seq<T>, p: T -> bool, q: T -> bool)
    requires forall i | 0 <= i < |s| :: p(s[i]) == q(s[i])
    ensures Filter(s, p) == Filter(s, q)
    decreases |s|
  {
    if |s| > 0 {
      forall i | 0 <= i < |s| - 1 ensures p(s[1..][i]) == q(s[1..][i]) {
        assert s[1..][i] == s[i + 1];
      }
      FilterCongruent(s[1..], p, q);
    }
  }

  predicate Below(a: int, b: int) { a < b }

  /** Each element is smaller than every later one. */
  ghost predicate StrictlyAscending(s: seq<int>)
  {
    Pairwise(s, Below)
  }

  /** A prefix followed by the next slice is the longer prefix. */
  lemma PrefixJoin<T>(s: seq<T>, i: int, j: int)
    requires 0 <= i <= j <= |s|
    ensures s[..i] + s[i..j] == s[..j]
  {
  }

  /** `Array.prototype.map`. */
  function Map<T, U>(s: seq<T>, f: T -> U): (r: seq<U>)
    ensures |r| == |s| && forall i | 0 <= i < |s| :: r[i] == f(s[i])
  {
    seq(|s|, i requires 0 <= i < |s| => f(s[i]))
  }

  lemma MapAppend<T, U>(a: seq<T>, b: seq<T>, f: T -> U)
    ensures Map(a + b, f) == Map(a, f) + Map(b, f)
  {
  }

  /** `Array.prototype.flatMap`. */
  function FlatMap<T, U(!new)>(s: seq<T>, f: T -> seq<U>): (r: seq<U>)
    ensures forall y :: y in r <==> exists x :: x in s && y in f(x)
    decreases |s|
  {
    if |s| == 0 then []
    else f(s[0]) + FlatMap(s[1..], f)
  }

  lemma {:induction false} FlatMapAppend<T, U(!new)>(a: seq<T>, b: seq<T>, f: T -> seq<U>)
    ensures FlatMap(a + b, f) == FlatMap(a, f) + FlatMap(b, f)
    decreases |a|
  {
    if |a| == 0 {
      assert a + b == b;
    } else {
      assert (a + b)[1..] == a[1..] + b;
      FlatMapAppend(a[1..], b, f);
    }
  }

  /** `reduce((acc, x) => acc + g(x), 0)`. */
  function SumBy<T>(s: seq<T>, g: T -> int): int
    decreases |s|
  {
    if |s| == 0 then 0 else g(s[0]) + SumBy(s[1..], g)
  }

  lemma {:induction false} SumByAppend<T>(a: seq<T>, b: seq<T>, g: T -> int)
    ensures SumBy(a + b, g) == SumBy(a, g) + SumBy(b, g)
    decreases |a|
  {
    if |a| == 0 {
      assert a + b == b;
    } else {
      assert (a + b)[1..] == a[1..] + b;
      SumByAppend(a[1..], b, g);
    }
  }

  /** Raising the summand of every element satisfying `hit` by `c` raises the
      sum by `c` per such element. */
  lemma {:induction false} SumByShift<T(!new)>(s: seq<T>, f: T -> int, g: T -> int, hit: T -> bool, c: int)
    requires forall x :: f(x) == g(x) + (if hit(x) then c else 0)
    ensures SumBy(s, f) == SumBy(s, g) + c * |Filter(s, hit)|
    decreases |s|
  {
    if |s| > 0 {
      var t := s[1..];
      SumByShift(t, f, g, hit, c);
      FilterLengthCons(s, hit);
      ScaleSum(c, if hit(s[0]) then 1 else 0, |Filter(t, hit)|);
    }
  }

  lemma FilterLengthCons<T(!new)>(s: seq<T>, p: T -> bool)
    requires |s| > 0
    ensures |Filter(s, p)| == (if p(s[0]) then 1 else 0) + |Filter(s[1..], p)|
  {
    FilterCons(s, p);
  }

  lemma ScaleSum(c: int, a: int, b: int)
    ensures c * (a + b) == c * a + c * b
  {
  }

  /** A sum of zeros is zero. */
  lemma {:induction false} SumByZero<T>(s: seq<T>, f: T -> int)
    requires forall i | 0 <= i < |s| :: f(s[i]) == 0
    ensures SumBy(s, f) == 0
    decreases |s|
  {
    if |s| > 0 {
      assert forall i | 0 <= i < |s| - 1 :: s[1..][i] == s[i + 1];
      SumByZero(s[1..], f);
    }
  }

  /** When no two positions both satisfy `hit`, the filter keeps one element if
      some position does and none otherwise. */
  lemma {:induction false} SingleHit<T(!new)>(s: seq<T>, hit: T -> bool)
    requires forall i, j | 0 <= i < j < |s| :: !(hit(s[i]) && hit(s[j]))
    ensures |Filter(s, hit)| == if exists i | 0 <= i < |s| :: hit(s[i]) then 1 else 0
    decreases |s|
  {
    if |s| > 0 {
      var t := s[1..];
      assert forall i | 0 <= i < |t| :: t[i] == s[i + 1];
      if hit(s[0]) {
        assert forall i | 0 <= i < |t| :: !hit(t[i]);
        FilterNone(t, hit);
      } else {
        SingleHit(t, hit);
        assert (exists i | 0 <= i < |s| :: hit(s[i])) <==> (exists i | 0 <= i < |t| :: hit(t[i])) by {
          if exists i | 0 <= i < |s| :: hit(s[i]) {
            var i :| 0 <= i < |s| && hit(s[i]);
            assert t[i - 1] == s[i];
          }
        }
      }
    }
  }

  function EqualTo<T(==)>(x: T): T -> bool
  {
    (y: T) => y == x
  }

  /** Summing the lengths of the parts is the length of their concatenation. */
  lemma {:induction false} FlatMapLength<T, U(!new)>(s: seq<T>, f: T -> seq<U>, g: T -> int)
    requires forall x :: g(x) == |f(x)|
    ensures |FlatMap(s, f)| == SumBy(s, g)
    decreases |s|
  {
    if |s| > 0 {
      FlatMapLength(s[1..], f, g);
    }
  }

  /** The index of the first element satisfying `p` (`Array.prototype.findIndex`). */
  function FindIndex<T>(s: seq<T>, p: T -> bool): (r: Option<nat>)
    ensures r.Some? ==> r.value < |s| && p(s[r.value]) && forall k | 0 <= k < r.value :: !p(s[k])
    ensures r.None? ==> forall k | 0 <= k < |s| :: !p(s[k])
    decreases |s|
  {
    if |s| == 0 then None
    else if p(s[0]) then Some(0)
    else match FindIndex(s[1..], p)
      case None => None
      case Some(k) => Some(k + 1)
  }

  /** `Array.prototype.find`: the first element satisfying `p`. */
  function Find<T>(s: seq<T>, p: T -> bool): (r: Option<T>)
    ensures r.None? <==> forall k | 0 <= k < |s| :: !p(s[k])
    ensures r.Some? ==> exists k | 0 <= k < |s| :: s[k] == r.value && p(s[k]) && forall j | 0 <= j < k :: !p(s[j])
  {
    match FindIndex(s, p)
    case None => None
    case Some(k) => Some(s[k])
  }

  /** Searching with two predicates that agree on the elements finds the same
      element. */
  lemma {:induction false} FindCongruent<T>(s: seq<T>, p: T -> bool, q: T -> bool)
    requires forall i | 0 <= i < |s| :: p(s[i]) == q(s[i])
    ensures Find(s, p) == Find(s, q)
  {
    FindIndexCongruent(s, p, q);
  }

  lemma {:induction false} FindIndexCongruent<T>(s: seq<T>, p: T -> bool, q: T -> bool)
    requires forall i | 0 <= i < |s| :: p(s[i]) == q(s[i])
    ensures FindIndex(s, p) == FindIndex(s, q)
    decreases |s|
  {
    if |s| > 0 {
      assert forall i | 0 <= i < |s| - 1 :: s[1..][i] == s[i + 1];
      FindIndexCongruent(s[1..], p, q);
    }
  }

  /** Searching a concatenation finds the first hit of the first part, or else
      the first hit of the second part. */
  lemma {:induction false} FindAppend<T>(a: seq<T>, b: seq<T>, p: T -> bool)
    ensures Find(a + b, p) == if Find(a, p).Some? then Find(a, p) else Find(b, p)
    decreases |a|
  {
    if |a| == 0 {
      assert a + b == b;
    } else {
      assert (a + b)[1..] == a[1..] + b;
      FindAppend(a[1..], b, p);
    }
  }

  /** `s.filter((_, j) => j !== i)`. */
  function RemoveAt<T>(s: seq<T>, i: int): (r: seq<T>)
    ensures 0 <= i < |s| ==> r == s[..i] + s[i + 1..]
    ensures !(0 <= i < |s|) ==> r == s
    decreases |s|
  {
    if |s| == 0 then []
    else if i == 0 then s[1..]
    else
      var t := RemoveAt(s[1..], i - 1);
      assert [s[0]] + s[1..] == s;
      assert 0 < i < |s| ==> [s[0]] + t == s[..i] + s[i + 1..] by {
        if 0 < i < |s| {
          assert s[..i] == [s[0]] + s[1..][..i - 1];
          assert s[1..][i..] == s[i + 1..];
        }
      }
      [s[0]] + t
  }

  /** The integers lo, lo+1, ..., hi-1. */
  function Range(lo: int, hi: int): (r: seq<int>)
    ensures |r| == if lo <= hi then hi - lo else 0
    ensures forall k | 0 <= k < |r| :: r[k] == lo + k
    ensures forall x :: x in r <==> lo <= x < hi
    ensures Distinct(r)
    ensures StrictlyAscending(r)
    decreases hi - lo
  {
    if lo >= hi then [] else [lo] + Range(lo + 1, hi)
  }

  import opened Wrappers
}
