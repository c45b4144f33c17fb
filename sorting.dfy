/** Python's stable `sorted(xs, key=...)` and list comprehensions with a condition.

    A stable sort is described through the permutation of positions it applies: position i
    goes before position j when its key is smaller, or when the keys are equal and i < j.
    This order is strict and total on positions, so the permutation is unique. */
module Sorting {

  /** `less` is a strict total order (what Python's `<` is on numbers and on strings). */
  ghost predicate StrictOrder<K(!new)>(less: (K, K) -> bool) {
    && (forall a :: !less(a, a))
    && (forall a, b :: less(a, b) || a == b || less(b, a))
    && (forall a, b, c :: less(a, b) && less(b, c) ==> less(a, c))
  }

  /** Position i comes before position j in the stable order. */
  predicate Before<K(==)>(keys: seq<K>, less: (K, K) -> bool, i: nat, j: nat)
    requires i < |keys| && j < |keys|
  {
    less(keys[i], keys[j]) || (keys[i] == keys[j] && i < j)
  }

  predicate InRange(p: seq<nat>, n: nat) {
    forall k :: 0 <= k < |p| ==> p[k] < n
  }

  predicate SortedBy<K(==)>(keys: seq<K>, less: (K, K) -> bool, p: seq<nat>)
    requires InRange(p, |keys|)
  {
    forall a, b :: 0 <= a < b < |p| ==> Before(keys, less, p[a], p[b])
  }

  lemma BeforeTotal<K(!new)>(keys: seq<K>, less: (K, K) -> bool, i: nat, j: nat)
    requires StrictOrder(less) && i < |keys| && j < |keys| && i != j
    ensures Before(keys, less, i, j) || Before(keys, less, j, i)
  {
  }

  lemma BeforeTransitive<K(!new)>(keys: seq<K>, less: (K, K) -> bool, i: nat, j: nat, k: nat)
    requires StrictOrder(less) && i < |keys| && j < |keys| && k < |keys|
    requires Before(keys, less, i, j) && Before(keys, less, j, k)
    ensures Before(keys, less, i, k)
  {
  }

  lemma BeforeIrreflexive<K(!new)>(keys: seq<K>, less: (K, K) -> bool, i: nat)
    requires StrictOrder(less) && i < |keys|
    ensures !Before(keys, less, i, i)
  {
  }

  /** Insert position i after the leading positions that come before it. */
  function Insert<K(==)>(keys: seq<K>, less: (K, K) -> bool, i: nat, p: seq<nat>): (r: seq<nat>)
    requires i < |keys| && InRange(p, |keys|)
    ensures InRange(r, |keys|)
    ensures multiset(r) == multiset(p) + multiset{i}
  {
    if p == [] || !Before(keys, less, p[0], i) then [i] + p
    else
      assert p == [p[0]] + p[1..];
      [p[0]] + Insert(keys, less, i, p[1..])
  }

  lemma {:induction false} InsertSorted<K(!new)>(keys: seq<K>, less: (K, K) -> bool, i: nat, p: seq<nat>)
    requires StrictOrder(less)
    requires i < |keys| && InRange(p, |keys|) && i !in p && SortedBy(keys, less, p)
    ensures SortedBy(keys, less, Insert(keys, less, i, p))
  {
    if p == [] {
    } else if !Before(keys, less, p[0], i) {
      BeforeTotal(keys, less, i, p[0]);
      forall b | 0 <= b < |p| ensures Before(keys, less, i, p[b]) {
        if b > 0 { BeforeTransitive(keys, less, i, p[0], p[b]); }
      }
    } else {
      SortedTail(keys, less, p);
      InsertSorted(keys, less, i, p[1..]);
      var t := Insert(keys, less, i, p[1..]);
      assert p == [p[0]] + p[1..];
      forall b | 0 <= b < |t| ensures Before(keys, less, p[0], t[b]) {
        assert t[b] in multiset(t);
        if t[b] != i {
          assert t[b] in p[1..];
          var c :| 0 <= c < |p[1..]| && p[1..][c] == t[b];
          assert p[c + 1] == t[b];
        }
      }
    }
  }

  lemma SortedTail<K(!new)>(keys: seq<K>, less: (K, K) -> bool, p: seq<nat>)
    requires p != [] && InRange(p, |keys|) && SortedBy(keys, less, p)
    ensures InRange(p[1..], |keys|) && SortedBy(keys, less, p[1..])
  {
    forall a, b | 0 <= a < b < |p| - 1 ensures Before(keys, less, p[1..][a], p[1..][b]) {
      assert p[1..][a] == p[a + 1] && p[1..][b] == p[b + 1];
    }
  }

  /** The stable order of the first n positions, built by insertion. */
  function RankPrefix<K(==)>(keys: seq<K>, less: (K, K) -> bool, n: nat): (p: seq<nat>)
    requires n <= |keys|
    ensures InRange(p, n) && InRange(p, |keys|)
    ensures multiset(p) == multiset(Range(n))
  {
    if n == 0 then []
    else
      var q := RankPrefix(keys, less, n - 1);
      var r := Insert(keys, less, n - 1, q);
      assert Range(n) == Range(n - 1) + [n - 1];
      forall k | 0 <= k < |r| ensures r[k] < n {
        assert r[k] in multiset(r);
        if r[k] != n - 1 {
          assert r[k] in multiset(q);
          assert r[k] in q;
        }
      }
      r
  }

  lemma {:induction false} RankPrefixSorted<K(!new)>(keys: seq<K>, less: (K, K) -> bool, n: nat)
    requires StrictOrder(less) && n <= |keys|
    ensures SortedBy(keys, less, RankPrefix(keys, less, n))
  {
    if n > 0 {
      RankPrefixSorted(keys, less, n - 1);
      RankPrefixStep(keys, less, n);
    }
  }

  lemma RankPrefixStep<K(!new)>(keys: seq<K>, less: (K, K) -> bool, n: nat)
    requires StrictOrder(less) && 0 < n <= |keys|
    requires SortedBy(keys, less, RankPrefix(keys, less, n - 1))
    ensures SortedBy(keys, less, RankPrefix(keys, less, n))
  {
    var q := RankPrefix(keys, less, n - 1);
    NotInRange(q, n - 1);
    InsertSorted(keys, less, n - 1, q);
    assert RankPrefix(keys, less, n) == Insert(keys, less, n - 1, q);
  }

  lemma NotInRange(p: seq<nat>, n: nat)
    requires InRange(p, n)
    ensures n !in p
  {
  }

  /** [0, 1, ..., n-1] */
  function Range(n: nat): (r: seq<nat>)
    ensures |r| == n && forall k :: 0 <= k < n ==> r[k] == k
  {
    if n == 0 then [] else Range(n - 1) + [n - 1]
  }

  /** The permutation that the stable sort by `keys` applies: result position k holds
      input position Rank(keys, less)[k]. */
  function Rank<K(==,!new)>(keys: seq<K>, less: (K, K) -> bool): (p: seq<nat>)
    requires StrictOrder(less)
    ensures |p| == |keys| && InRange(p, |keys|)
  {
    var p := RankPrefix(keys, less, |keys|);
    assert |p| == |keys| by {
      assert |multiset(p)| == |multiset(Range(|keys|))|;
    }
    p
  }

  /** The positions come out in sorted, stable order, and every input position occurs. */
  lemma RankSorted<K(!new)>(keys: seq<K>, less: (K, K) -> bool)
    requires StrictOrder(less)
    ensures SortedBy(keys, less, Rank(keys, less))
    ensures forall i :: 0 <= i < |keys| ==> i in Rank(keys, less)
  {
    var p := Rank(keys, less);
    RankPrefixSorted(keys, less, |keys|);
    forall i | 0 <= i < |keys| ensures i in p {
      assert Range(|keys|)[i] == i;
      assert i in multiset(Range(|keys|));
    }
  }

  /** Sorted positions are pairwise distinct. */
  lemma RankDistinct<K(!new)>(keys: seq<K>, less: (K, K) -> bool, a: nat, b: nat)
    requires StrictOrder(less)
    requires a < b < |keys|
    ensures Rank(keys, less)[a] != Rank(keys, less)[b]
  {
    var p := Rank(keys, less);
    RankSorted(keys, less);
    assert Before(keys, less, p[a], p[b]);
    if p[a] == p[b] { BeforeIrreflexive(keys, less, p[a]); }
  }

  /** xs rearranged by the positions p. */
  function Arrange<T>(xs: seq<T>, p: seq<nat>): (r: seq<T>)
    requires InRange(p, |xs|)
    ensures |r| == |p| && forall k :: 0 <= k < |p| ==> r[k] == xs[p[k]]
  {
    seq(|p|, k requires 0 <= k < |p| => xs[p[k]])
  }

  /** sorted(xs, key=key): stable, ascending in `less`. */
  function SortBy<T, K(==,!new)>(xs: seq<T>, key: T -> K, less: (K, K) -> bool): (r: seq<T>)
    requires StrictOrder(less)
    ensures |r| == |xs|
  {
    Arrange(xs, Rank(Map(xs, key), less))
  }

  /** The result is ascending in `less` of the key. */
  lemma SortBySorted<T, K(!new)>(xs: seq<T>, key: T -> K, less: (K, K) -> bool)
    requires StrictOrder(less)
    ensures forall a, b :: 0 <= a < b < |SortBy(xs, key, less)| ==>
              !less(key(SortBy(xs, key, less)[b]), key(SortBy(xs, key, less)[a]))
  {
    var keys := Map(xs, key);
    var p := Rank(keys, less);
    var r := SortBy(xs, key, less);
    RankSorted(keys, less);
    forall a, b | 0 <= a < b < |r| ensures !less(key(r[b]), key(r[a])) {
      assert Before(keys, less, p[a], p[b]);
    }
  }

  lemma {:induction false} ArrangeCons<T>(xs: seq<T>, a: nat, q: seq<nat>)
    requires a < |xs| && InRange(q, |xs|)
    ensures Arrange(xs, [a] + q) == [xs[a]] + Arrange(xs, q)
  {
  }

  lemma {:induction false} ArrangeInsert<T, K>(xs: seq<T>, keys: seq<K>, less: (K, K) -> bool, i: nat, p: seq<nat>)
    requires |keys| == |xs| && i < |keys| && InRange(p, |keys|)
    ensures multiset(Arrange(xs, Insert(keys, less, i, p))) == multiset(Arrange(xs, p)) + multiset{xs[i]}
  {
    if p == [] {
    } else if !Before(keys, less, p[0], i) {
      ArrangeCons(xs, i, p);
    } else {
      var t := p[1..];
      assert p == [p[0]] + t;
      ArrangeInsert(xs, keys, less, i, t);
      var u := Insert(keys, less, i, t);
      assert Insert(keys, less, i, p) == [p[0]] + u;
      ArrangeCons(xs, p[0], u);
      ArrangeCons(xs, p[0], t);
      assert multiset([xs[p[0]]] + Arrange(xs, u)) == multiset{xs[p[0]]} + multiset(Arrange(xs, u));
      assert multiset([xs[p[0]]] + Arrange(xs, t)) == multiset{xs[p[0]]} + multiset(Arrange(xs, t));
    }
  }

  lemma {:induction false} ArrangeRankPrefix<T, K>(xs: seq<T>, keys: seq<K>, less: (K, K) -> bool, n: nat)
    requires |keys| == |xs| && n <= |xs|
    ensures multiset(Arrange(xs, RankPrefix(keys, less, n))) == multiset(xs[..n])
  {
    if n > 0 {
      var q := RankPrefix(keys, less, n - 1);
      ArrangeRankPrefix(xs, keys, less, n - 1);
      assert RankPrefix(keys, less, n) == Insert(keys, less, n - 1, q);
      ArrangeInsertStep(xs, keys, less, n, q);
    }
  }

  lemma ArrangeInsertStep<T, K>(xs: seq<T>, keys: seq<K>, less: (K, K) -> bool, n: nat, q: seq<nat>)
    requires |keys| == |xs| && 0 < n <= |xs| && InRange(q, |keys|)
    requires multiset(Arrange(xs, q)) == multiset(xs[..n - 1])
    ensures multiset(Arrange(xs, Insert(keys, less, n - 1, q))) == multiset(xs[..n])
  {
    ArrangeInsert(xs, keys, less, n - 1, q);
    PrefixSnoc(xs, n);
  }

  lemma PrefixSnoc<T>(xs: seq<T>, n: nat)
    requires 0 < n <= |xs|
    ensures multiset(xs[..n]) == multiset(xs[..n - 1]) + multiset{xs[n - 1]}
  {
    assert xs[..n] == xs[..n - 1] + [xs[n - 1]];
  }

  /** The sorted list is a permutation of the input. */
  lemma SortByPermutation<T, K(!new)>(xs: seq<T>, key: T -> K, less: (K, K) -> bool)
    requires StrictOrder(less)
    ensures multiset(SortBy(xs, key, less)) == multiset(xs)
  {
    ArrangeRankPrefix(xs, Map(xs, key), less, |xs|);
    assert xs[..|xs|] == xs;
  }

  /** Stability: result position k holds input position Rank[k]; among equal keys the
      input order is kept. */
  lemma SortByStable<T, K(!new)>(xs: seq<T>, key: T -> K, less: (K, K) -> bool, a: nat, b: nat)
    requires StrictOrder(less)
    requires a < b < |xs|
    ensures var p := Rank(Map(xs, key), less);
            SortBy(xs, key, less)[a] == xs[p[a]] && SortBy(xs, key, less)[b] == xs[p[b]]
            && (key(xs[p[a]]) == key(xs[p[b]]) ==> p[a] < p[b])
  {
    var keys := Map(xs, key);
    var p := Rank(keys, less);
    RankSorted(keys, less);
    assert Before(keys, less, p[a], p[b]);
    if key(xs[p[a]]) == key(xs[p[b]]) {
      assert keys[p[a]] == keys[p[b]];
    }
  }

  /** A list comprehension `[x for x in xs if f(x)]`. */
  function Filter<T(!new)>(xs: seq<T>, f: T -> bool): (r: seq<T>)
    ensures |r| <= |xs|
  {
    if xs == [] then []
    else
      assert xs == [xs[0]] + xs[1..];
      (if f(xs[0]) then [xs[0]] else []) + Filter(xs[1..], f)
  }

  /** An element is selected exactly when it occurs and satisfies the condition. */
  lemma FilterMember<T(!new)>(xs: seq<T>, f: T -> bool, x: T)
    ensures x in Filter(xs, f) <==> x in xs && f(x)
  {
    if xs != [] {
      assert xs == [xs[0]] + xs[1..];
      FilterMember(xs[1..], f, x);
    }
  }

  lemma FilterMembers<T(!new)>(xs: seq<T>, f: T -> bool)
    ensures forall x :: x in Filter(xs, f) <==> x in xs && f(x)
  {
    forall x ensures x in Filter(xs, f) <==> x in xs && f(x) {
      FilterMember(xs, f, x);
    }
  }

  /** The comprehension keeps every selected element as often as it occurs. */
  lemma {:induction false} FilterCount<T(!new)>(xs: seq<T>, f: T -> bool, x: T)
    ensures multiset(Filter(xs, f))[x] == if f(x) then multiset(xs)[x] else 0
  {
    if xs != [] {
      assert xs == [xs[0]] + xs[1..];
      FilterCount(xs[1..], f, x);
    }
  }

  /** The comprehension keeps the order of its input: a list sorted by a key stays sorted. */
  lemma {:induction false} FilterKeepsOrder<T(!new), K>(xs: seq<T>, f: T -> bool, key: T -> K, less: (K, K) -> bool)
    requires forall a, b :: 0 <= a < b < |xs| ==> !less(key(xs[b]), key(xs[a]))
    ensures forall a, b :: 0 <= a < b < |Filter(xs, f)| ==> !less(key(Filter(xs, f)[b]), key(Filter(xs, f)[a]))
  {
    if xs != [] {
      var t := xs[1..];
      forall a, b | 0 <= a < b < |t| ensures !less(key(t[b]), key(t[a])) {
        assert t[a] == xs[a + 1] && t[b] == xs[b + 1];
      }
      FilterKeepsOrder(t, f, key, less);
      var rest := Filter(t, f);
      var r := Filter(xs, f);
      if f(xs[0]) {
        assert r == [xs[0]] + rest;
        forall a, b | 0 <= a < b < |r| ensures !less(key(r[b]), key(r[a])) {
          if a == 0 {
            assert r[b] == rest[b - 1] && rest[b - 1] in rest;
            FilterMember(t, f, r[b]);
            var j :| 0 <= j < |t| && t[j] == r[b];
            assert r[0] == xs[0] && xs[j + 1] == r[b];
            assert !less(key(xs[j + 1]), key(xs[0]));
          } else {
            assert r[a] == rest[a - 1] && r[b] == rest[b - 1];
            assert !less(key(rest[b - 1]), key(rest[a - 1]));
          }
        }
      } else {
        assert r == rest;
      }
    }
  }

  lemma {:induction false} FilterAppend<T(!new)>(xs: seq<T>, ys: seq<T>, f: T -> bool)
    ensures Filter(xs + ys, f) == Filter(xs, f) + Filter(ys, f)
  {
    if xs != [] {
      assert (xs + ys)[1..] == xs[1..] + ys;
      FilterAppend(xs[1..], ys, f);
    } else {
      assert xs + ys == ys;
    }
  }

  /** [f(x) for x in xs] */
  function Map<T, U>(xs: seq<T>, f: T -> U): (r: seq<U>)
    ensures |r| == |xs| && forall i :: 0 <= i < |xs| ==> r[i] == f(xs[i])
  {
    seq(|xs|, i requires 0 <= i < |xs| => f(xs[i]))
  }

  /** Concatenation of a list of lists (the result of repeated `extend`). */
  function Flatten<T>(xss: seq<seq<T>>): seq<T> {
    if xss == [] then [] else Flatten(xss[..|xss| - 1]) + xss[|xss| - 1]
  }

  /** Number of occurrences of v. */
  function Count<T(==)>(xs: seq<T>, v: T): nat {
    if xs == [] then 0 else Count(xs[..|xs| - 1], v) + (if xs[|xs| - 1] == v then 1 else 0)
  }
}
