/**
 * The JavaScript array operations the application is built from, written once
 * as functions over sequences: `filter`, `find`, `map` with a conditional
 * replacement, the stable `sort` of ES2019, `reverse`, `slice(0, n)` and a
 * `reduce` that sums.  Each comes with the lemmas that say what it means.
 */
module Seqs {

  datatype Option<T> = None | Some(value: T)

  /** `a` is obtained from `b` by deleting elements; order is kept. */
  ghost predicate Subsequence<T>(a: seq<T>, b: seq<T>)
    decreases |b|
  {
    if a == [] then true
    else if b == [] then false
    else (a[0] == b[0] && Subsequence(a[1..], b[1..])) || Subsequence(a, b[1..])
  }

  // ---------------------------------------------------------------- filter

  /** `s.filter(p)`. */
  function Filter<T(==)>(s: seq<T>, p: T -> bool): (r: seq<T>)
    ensures |r| <= |s|
    ensures forall i :: 0 <= i < |r| ==> r[i] in s && p(r[i])
    ensures forall i :: 0 <= i < |s| && p(s[i]) ==> s[i] in r
  {
    if s == [] then []
    else if p(s[0]) then [s[0]] + Filter(s[1..], p)
    else Filter(s[1..], p)
  }

  lemma {:induction false} FilterIsSubsequence<T>(s: seq<T>, p: T -> bool)
    ensures Subsequence(Filter(s, p), s)
  {
    if s != [] {
      FilterIsSubsequence(s[1..], p);
      var r := Filter(s[1..], p);
      if p(s[0]) {
        assert ([s[0]] + r)[1..] == r;
      } else {
        SubsequenceSkip(r, s);
      }
    }
  }

  /** Dropping the head of the longer sequence keeps a subsequence. */
  lemma {:induction false} SubsequenceSkip<T>(a: seq<T>, b: seq<T>)
    requires b != [] && Subsequence(a, b[1..])
    ensures Subsequence(a, b)
  {
  }

  lemma {:induction false} FilterAppend<T>(a: seq<T>, b: seq<T>, p: T -> bool)
    ensures Filter(a + b, p) == Filter(a, p) + Filter(b, p)
  {
    if a == [] {
      assert a + b == b;
    } else {
      assert (a + b)[0] == a[0];
      assert (a + b)[1..] == a[1..] + b;
      FilterAppend(a[1..], b, p);
    }
  }

  /** Filters by predicates that agree on the elements give the same result. */
  lemma {:induction false} FilterCongruent<T>(s: seq<T>, p: T -> bool, q: T -> bool)
    requires forall i :: 0 <= i < |s| ==> (p(s[i]) <==> q(s[i]))
    ensures Filter(s, p) == Filter(s, q)
  {
    if s != [] {
      FilterCongruent(s[1..], p, q);
    }
  }

  /** A filter that every element passes returns the whole sequence. */
  lemma {:induction false} FilterKeepsAll<T>(s: seq<T>, p: T -> bool)
    requires forall i :: 0 <= i < |s| ==> p(s[i])
    ensures Filter(s, p) == s
  {
    if s != [] {
      FilterKeepsAll(s[1..], p);
      assert [s[0]] + s[1..] == s;
    }
  }

  /** A filter that no element passes returns nothing. */
  lemma {:induction false} FilterDropsAll<T>(s: seq<T>, p: T -> bool)
    requires forall i :: 0 <= i < |s| ==> !p(s[i])
    ensures Filter(s, p) == []
  {
    if s != [] {
      FilterDropsAll(s[1..], p);
    }
  }

  /** Filtering by a predicate and by its negation splits the sequence in two. */
  lemma {:induction false} FilterPartition<T>(s: seq<T>, p: T -> bool, q: T -> bool)
    requires forall i :: 0 <= i < |s| ==> (q(s[i]) <==> !p(s[i]))
    ensures |Filter(s, p)| + |Filter(s, q)| == |s|
  {
    if s != [] {
      FilterPartition(s[1..], p, q);
    }
  }

  /** A filter keeps every copy of each element that passes and no copy of one that fails. */
  lemma {:induction false} FilterMultiset<T>(s: seq<T>, p: T -> bool)
    ensures forall x :: multiset(Filter(s, p))[x] == if p(x) then multiset(s)[x] else 0
  {
    if s != [] {
      FilterMultiset(s[1..], p);
      assert s == [s[0]] + s[1..];
    }
  }

  // ------------------------------------------------------------------ find

  /** `s.findIndex(p)`, as an option: the first index whose element passes. */
  function Find<T>(s: seq<T>, p: T -> bool): (r: Option<nat>)
    ensures r.Some? ==> r.value < |s| && p(s[r.value])
    ensures r.Some? ==> forall j :: 0 <= j < r.value ==> !p(s[j])
    ensures r.None? ==> forall j :: 0 <= j < |s| ==> !p(s[j])
  {
    if s == [] then None
    else if p(s[0]) then Some(0)
    else match Find(s[1..], p)
      case None => None
      case Some(k) => Some(k + 1)
  }

  // --------------------------------------------------- map with replacement

  /** `s.map(y => p(y) ? x : y)`. */
  function ReplaceWhere<T>(s: seq<T>, p: T -> bool, x: T): seq<T>
  {
    if s == [] then [] else [if p(s[0]) then x else s[0]] + ReplaceWhere(s[1..], p, x)
  }

  lemma {:induction false} ReplaceWhereAt<T>(s: seq<T>, p: T -> bool, x: T)
    ensures |ReplaceWhere(s, p, x)| == |s|
    ensures forall i :: 0 <= i < |s| ==> ReplaceWhere(s, p, x)[i] == if p(s[i]) then x else s[i]
  {
    if s != [] {
      ReplaceWhereAt(s[1..], p, x);
    }
  }

  // -------------------------------------------------------------- reduce

  /** `s.reduce((acc, y) => acc + f(y), 0)`. */
  function SumBy<T>(s: seq<T>, f: T -> int): int
  {
    if s == [] then 0 else f(s[0]) + SumBy(s[1..], f)
  }

  lemma {:induction false} SumByAppend<T>(a: seq<T>, b: seq<T>, f: T -> int)
    ensures SumBy(a + b, f) == SumBy(a, f) + SumBy(b, f)
  {
    if a == [] {
      assert a + b == b;
    } else {
      assert (a + b)[1..] == a[1..] + b;
      SumByAppend(a[1..], b, f);
    }
  }

  lemma {:induction false} SumByUpdate<T>(s: seq<T>, i: nat, x: T, f: T -> int)
    requires i < |s|
    ensures SumBy(s[i := x], f) == SumBy(s, f) - f(s[i]) + f(x)
  {
    if i > 0 {
      assert s[i := x][1..] == s[1..][i - 1 := x];
      SumByUpdate(s[1..], i - 1, x, f);
    }
  }

  // ----------------------------------------------------------------- sort

  ghost predicate SortedBy<T>(s: seq<T>, key: T -> int)
  {
    forall i, j :: 0 <= i < j < |s| ==> key(s[i]) <= key(s[j])
  }

  /** Puts `x` in front of the first element whose key is not smaller. */
  function Insert<T>(x: T, s: seq<T>, key: T -> int): (r: seq<T>)
    ensures |r| == |s| + 1
  {
    if s == [] then [x]
    else if key(x) <= key(s[0]) then [x] + s
    else [s[0]] + Insert(x, s[1..], key)
  }

  /**
   * `[...s].sort((a, b) => key(a) - key(b))`.  The ECMAScript sort is stable
   * (ES2019), so its result is determined: insertion from the back, each new
   * element going before the elements with an equal key, gives that result.
   */
  function SortBy<T>(s: seq<T>, key: T -> int): (r: seq<T>)
    ensures |r| == |s|
  {
    if s == [] then [] else Insert(s[0], SortBy(s[1..], key), key)
  }

  lemma {:induction false} InsertKeepsSorted<T>(x: T, s: seq<T>, key: T -> int)
    requires SortedBy(s, key)
    ensures SortedBy(Insert(x, s, key), key)
  {
    if s != [] && key(x) > key(s[0]) {
      var t := Insert(x, s[1..], key);
      InsertKeepsSorted(x, s[1..], key);
      InsertKeepsLowerBound(x, s[1..], key, key(s[0]));
      var u := [s[0]] + t;
      forall i, j | 0 <= i < j < |u| ensures key(u[i]) <= key(u[j]) {
        assert u[j] == t[j - 1];
        if i > 0 {
          assert u[i] == t[i - 1];
        }
      }
    } else if s != [] {
      var u := [x] + s;
      forall i, j | 0 <= i < j < |u| ensures key(u[i]) <= key(u[j]) {
        assert u[j] == s[j - 1];
        if i > 0 {
          assert u[i] == s[i - 1];
        } else {
          assert key(s[0]) <= key(s[j - 1]);
        }
      }
    }
  }

  lemma {:induction false} InsertKeepsElements<T>(x: T, s: seq<T>, key: T -> int)
    ensures multiset(Insert(x, s, key)) == multiset{x} + multiset(s)
  {
    if s != [] && key(x) > key(s[0]) {
      InsertKeepsElements(x, s[1..], key);
      assert s == [s[0]] + s[1..];
    }
  }

  /** Inserting into a sequence whose keys are all at least `b` keeps them so. */
  lemma {:induction false} InsertKeepsLowerBound<T>(x: T, s: seq<T>, key: T -> int, b: int)
    requires key(x) >= b
    requires forall j :: 0 <= j < |s| ==> key(s[j]) >= b
    ensures forall j :: 0 <= j < |Insert(x, s, key)| ==> key(Insert(x, s, key)[j]) >= b
  {
    if s != [] && key(x) > key(s[0]) {
      InsertKeepsLowerBound(x, s[1..], key, b);
      var t := Insert(x, s[1..], key);
      assert forall j :: 0 < j < |[s[0]] + t| ==> ([s[0]] + t)[j] == t[j - 1];
    }
  }

  lemma {:induction false} SortBySorted<T>(s: seq<T>, key: T -> int)
    ensures SortedBy(SortBy(s, key), key)
  {
    if s != [] {
      SortBySorted(s[1..], key);
      InsertKeepsSorted(s[0], SortBy(s[1..], key), key);
    }
  }

  lemma {:induction false} SortByPermutes<T>(s: seq<T>, key: T -> int)
    ensures multiset(SortBy(s, key)) == multiset(s)
  {
    if s != [] {
      SortByPermutes(s[1..], key);
      InsertKeepsElements(s[0], SortBy(s[1..], key), key);
      assert s == [s[0]] + s[1..];
    }
  }

  /** The sort orders by the key and is a permutation. */
  lemma SortByFacts<T>(s: seq<T>, key: T -> int)
    ensures SortedBy(SortBy(s, key), key)
    ensures multiset(SortBy(s, key)) == multiset(s)
    ensures |SortBy(s, key)| == |s|
  {
    SortBySorted(s, key);
    SortByPermutes(s, key);
  }

  /** The elements with key `c`, as a predicate to filter by. */
  function KeyIs<T>(key: T -> int, c: int): T -> bool
  {
    y => key(y) == c
  }

  lemma {:induction false} InsertKeepsEqualKeys<T>(x: T, s: seq<T>, key: T -> int, c: int)
    ensures Filter(Insert(x, s, key), KeyIs(key, c))
         == (if key(x) == c then [x] else []) + Filter(s, KeyIs(key, c))
  {
    if s != [] && key(x) > key(s[0]) {
      InsertKeepsEqualKeys(x, s[1..], key, c);
      assert s[0] !in Filter(s, KeyIs(key, c)) || key(s[0]) == c;
    }
  }

  /**
   * Stability: among the elements that share one key value, the sorted
   * sequence keeps their original order.
   */
  lemma {:induction false} SortByIsStable<T>(s: seq<T>, key: T -> int, c: int)
    ensures Filter(SortBy(s, key), KeyIs(key, c)) == Filter(s, KeyIs(key, c))
  {
    if s != [] {
      SortByIsStable(s[1..], key, c);
      InsertKeepsEqualKeys(s[0], SortBy(s[1..], key), key, c);
    }
  }

  lemma {:induction false} InsertKeepsSum<T>(x: T, s: seq<T>, key: T -> int, f: T -> int)
    ensures SumBy(Insert(x, s, key), f) == f(x) + SumBy(s, f)
  {
    if s != [] && key(x) > key(s[0]) {
      InsertKeepsSum(x, s[1..], key, f);
    }
  }

  lemma {:induction false} SortByKeepsSum<T>(s: seq<T>, key: T -> int, f: T -> int)
    ensures SumBy(SortBy(s, key), f) == SumBy(s, f)
  {
    if s != [] {
      SortByKeepsSum(s[1..], key, f);
      InsertKeepsSum(s[0], SortBy(s[1..], key), key, f);
    }
  }

  /** No two elements share a projection (a name, an id). */
  ghost predicate DistinctBy<T, K>(s: seq<T>, proj: T -> K)
  {
    forall i, j :: 0 <= i < j < |s| ==> proj(s[i]) != proj(s[j])
  }

  lemma {:induction false} SortByKeepsDistinct<T, K>(s: seq<T>, key: T -> int, proj: T -> K)
    requires DistinctBy(s, proj)
    ensures DistinctBy(SortBy(s, key), proj)
  {
    if s != [] {
      SortByKeepsDistinct(s[1..], key, proj);
      var t := SortBy(s[1..], key);
      SortByFacts(s[1..], key);
      forall y | y in t ensures proj(y) != proj(s[0]) {
        assert y in multiset(s[1..]);
        var k :| 0 <= k < |s[1..]| && s[1..][k] == y;
        assert s[k + 1] == y;
      }
      InsertKeepsDistinct(s[0], t, key, proj);
    }
  }

  lemma {:induction false} InsertKeepsDistinct<T, K>(x: T, s: seq<T>, key: T -> int, proj: T -> K)
    requires DistinctBy(s, proj)
    requires forall y :: y in s ==> proj(y) != proj(x)
    ensures DistinctBy(Insert(x, s, key), proj)
    ensures forall y :: y in Insert(x, s, key) ==> y == x || y in s
  {
    if s != [] && key(x) > key(s[0]) {
      InsertKeepsDistinct(x, s[1..], key, proj);
      var t := Insert(x, s[1..], key);
      var u := [s[0]] + t;
      forall i, j | 0 <= i < j < |u| ensures proj(u[i]) != proj(u[j]) {
        if i == 0 {
          assert u[j] in t;
          if u[j] != x {
            var k :| 0 <= k < |s[1..]| && s[1..][k] == u[j];
            assert s[k + 1] == u[j];
          }
        } else {
          assert u[i] == t[i - 1] && u[j] == t[j - 1];
        }
      }
    }
  }

  // -------------------------------------------------------------- reverse

  /** `s.reverse()` as a value. */
  function Reverse<T>(s: seq<T>): (r: seq<T>)
    ensures |r| == |s|
  {
    if s == [] then [] else Reverse(s[1..]) + [s[0]]
  }

  lemma {:induction false} ReverseAt<T>(s: seq<T>)
    ensures |Reverse(s)| == |s|
    ensures forall k :: 0 <= k < |s| ==> Reverse(s)[k] == s[|s| - 1 - k]
  {
    if s != [] {
      ReverseAt(s[1..]);
    }
  }

  /** An ascending sequence read backwards is descending. */
  lemma ReverseOfSorted<T>(s: seq<T>, key: T -> int)
    requires SortedBy(s, key)
    ensures forall i, j :: 0 <= i < j < |s| ==> key(Reverse(s)[i]) >= key(Reverse(s)[j])
  {
    ReverseAt(s);
  }

  // ---------------------------------------------------------------- slice

  /** `s.slice(0, n)`. */
  function Take<T>(s: seq<T>, n: nat): (r: seq<T>)
    ensures |r| == if |s| <= n then |s| else n
    ensures forall k :: 0 <= k < |r| ==> r[k] == s[k]
  {
    if |s| <= n then s else s[..n]
  }

  /**
   * The first `n` elements of a sorted sequence are sorted, come from it, and
   * none of the elements left out has a smaller key than any that was kept.
   */
  lemma TakeOfSorted<T>(s: seq<T>, key: T -> int, n: nat)
    requires SortedBy(s, key)
    ensures SortedBy(Take(s, n), key)
    ensures multiset(Take(s, n)) <= multiset(s)
    ensures forall x :: x in multiset(s) - multiset(Take(s, n)) ==>
              forall i :: 0 <= i < |Take(s, n)| ==> key(Take(s, n)[i]) <= key(x)
  {
    if |s| > n {
      TakeSplit(s, n);
      forall x | x in multiset(s) - multiset(s[..n])
        ensures forall i :: 0 <= i < n ==> key(s[i]) <= key(x)
      {
        RestAbove(s, key, n, x);
      }
    }
  }

  lemma TakeSplit<T>(s: seq<T>, n: nat)
    requires n <= |s|
    ensures multiset(s) == multiset(s[..n]) + multiset(s[n..])
    ensures multiset(s) - multiset(s[..n]) == multiset(s[n..])
  {
    assert s == s[..n] + s[n..];
  }

  lemma RestAbove<T>(s: seq<T>, key: T -> int, n: nat, x: T)
    requires SortedBy(s, key) && n <= |s|
    requires x in multiset(s[n..])
    ensures forall i :: 0 <= i < n ==> key(s[i]) <= key(x)
  {
    var j :| 0 <= j < |s[n..]| && s[n..][j] == x;
    assert s[n + j] == x;
  }
}
