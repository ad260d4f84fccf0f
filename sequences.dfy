/** Stream operations over ordered collections, stated once for any element type:
    filter, a stable sort by a comparator, and distinct. */
module Sequences {
  import opened Wrappers

  /** `a` is obtained from `b` by deleting elements, keeping the order of the rest. */
  ghost predicate SubsequenceOf<T>(a: seq<T>, b: seq<T>)
    decreases |b|
  {
    a == [] || (b != [] && ((a[0] == b[0] && SubsequenceOf(a[1..], b[1..])) || SubsequenceOf(a, b[1..])))
  }

  /** Stream.filter(p).collect(toList()): the elements satisfying `p`, in encounter order. */
  function Filter<T(!new)>(s: seq<T>, p: T -> bool): (r: seq<T>)
    ensures |r| <= |s|
    ensures forall i | 0 <= i < |r| :: p(r[i])
  {
    if s == [] then []
    else if p(s[0]) then [s[0]] + Filter(s[1..], p)
    else Filter(s[1..], p)
  }

  /** Filter keeps every element satisfying `p`, as often as it occurs. */
  lemma {:induction false} FilterKeepsMatches<T(!new)>(s: seq<T>, p: T -> bool, x: T)
    requires p(x)
    ensures multiset(Filter(s, p))[x] == multiset(s)[x]
  {
    if s != [] {
      FilterKeepsMatches(s[1..], p, x);
      assert s == [s[0]] + s[1..];
    }
  }

  /** Filter keeps the encounter order. */
  lemma {:induction false} FilterIsSubsequence<T(!new)>(s: seq<T>, p: T -> bool)
    ensures SubsequenceOf(Filter(s, p), s)
  {
    if s != [] {
      FilterIsSubsequence(s[1..], p);
      if p(s[0]) {
        assert ([s[0]] + Filter(s[1..], p))[1..] == Filter(s[1..], p);
      }
    }
  }

  /** Filters by pointwise-equal predicates agree. */
  lemma {:induction false} FilterSamePredicate<T(!new)>(s: seq<T>, p: T -> bool, q: T -> bool)
    requires forall x :: p(x) == q(x)
    ensures Filter(s, p) == Filter(s, q)
  {
    if s != [] {
      FilterSamePredicate(s[1..], p, q);
    }
  }

  /** Filtering distributes over concatenation. */
  lemma {:induction false} FilterAppend<T(!new)>(a: seq<T>, b: seq<T>, p: T -> bool)
    ensures Filter(a + b, p) == Filter(a, p) + Filter(b, p)
  {
    if a != [] {
      assert (a + b)[1..] == a[1..] + b;
      FilterAppend(a[1..], b, p);
    } else {
      assert a + b == b;
    }
  }

  /** Splitting by a predicate and its negation loses and duplicates nothing. */
  lemma {:induction false} FilterComplement<T(!new)>(s: seq<T>, p: T -> bool, q: T -> bool)
    requires forall x :: q(x) == !p(x)
    ensures |Filter(s, p)| + |Filter(s, q)| == |s|
    ensures multiset(Filter(s, p)) + multiset(Filter(s, q)) == multiset(s)
  {
    if s != [] {
      var x := s[0];
      var fp, fq := Filter(s[1..], p), Filter(s[1..], q);
      FilterComplement(s[1..], p, q);
      assert s == [x] + s[1..];
      if p(x) {
        assert Filter(s, p) == [x] + fp;
        assert Filter(s, q) == fq;
        calc {
          multiset(Filter(s, p)) + multiset(Filter(s, q));
          multiset{x} + multiset(fp) + multiset(fq);
          multiset{x} + multiset(s[1..]);
        }
      } else {
        assert Filter(s, p) == fp;
        assert Filter(s, q) == [x] + fq;
        calc {
          multiset(Filter(s, p)) + multiset(Filter(s, q));
          multiset(fp) + (multiset{x} + multiset(fq));
          multiset{x} + multiset(s[1..]);
        }
      }
    }
  }

  /** A comparator describing a total preorder (Comparator's contract). */
  ghost predicate TotalPreorder<T(!new)>(le: (T, T) -> bool)
  {
    && (forall a, b :: le(a, b) || le(b, a))
    && (forall a, b, c :: le(a, b) && le(b, c) ==> le(a, c))
  }

  predicate SortedBy<T>(s: seq<T>, le: (T, T) -> bool)
  {
    forall i, j | 0 <= i < j < |s| :: le(s[i], s[j])
  }

  /** Places `x` before the first element it does not come after. */
  function Insert<T>(x: T, t: seq<T>, le: (T, T) -> bool): (r: seq<T>)
    ensures |r| == |t| + 1
    ensures multiset(r) == multiset(t) + multiset{x}
  {
    if t == [] then [x]
    else if le(x, t[0]) then [x] + t
    else
      assert t == [t[0]] + t[1..];
      [t[0]] + Insert(x, t[1..], le)
  }

  /** List.sort / Stream.sorted: a stable sort, here an insertion sort from the back. */
  function StableSort<T>(s: seq<T>, le: (T, T) -> bool): (r: seq<T>)
    ensures |r| == |s|
    ensures multiset(r) == multiset(s)
  {
    if s == [] then []
    else
      assert s == [s[0]] + s[1..];
      Insert(s[0], StableSort(s[1..], le), le)
  }

  lemma {:induction false} InsertSorted<T(!new)>(x: T, t: seq<T>, le: (T, T) -> bool)
    requires TotalPreorder(le)
    requires SortedBy(t, le)
    ensures SortedBy(Insert(x, t, le), le)
  {
    if t != [] && !le(x, t[0]) {
      var rest := Insert(x, t[1..], le);
      InsertSorted(x, t[1..], le);
      forall j | 0 <= j < |rest| ensures le(t[0], rest[j]) {
        assert rest[j] in multiset(t[1..]) + multiset{x};
        if rest[j] != x {
          assert rest[j] in t[1..];
        }
      }
    }
  }

  /** The sorted output is ordered by the comparator. */
  lemma {:induction false} StableSortSorted<T(!new)>(s: seq<T>, le: (T, T) -> bool)
    requires TotalPreorder(le)
    ensures SortedBy(StableSort(s, le), le)
  {
    if s != [] {
      StableSortSorted(s[1..], le);
      InsertSorted(s[0], StableSort(s[1..], le), le);
    }
  }

  /** In a sorted arrangement of `s`, every element of a prefix may precede every element of
      `s` the prefix leaves out; the prefix itself is sorted and drawn from `s`. */
  lemma SortedSplit<T>(s: seq<T>, sorted: seq<T>, le: (T, T) -> bool, n: nat)
    requires SortedBy(sorted, le) && multiset(sorted) == multiset(s)
    requires n <= |sorted|
    ensures var p := sorted[..n];
      && SortedBy(p, le)
      && (forall t, x | t in p && x in s && x !in p :: le(t, x))
      && multiset(p) <= multiset(s)
  {
    var p := sorted[..n];
    forall t, x | t in p && x in s && x !in p ensures le(t, x) {
      assert x in multiset(sorted);
      var j :| 0 <= j < |sorted| && sorted[j] == x;
      var i :| 0 <= i < |p| && p[i] == t;
      assert n <= j by { assert forall m | 0 <= m < n :: p[m] == sorted[m]; }
      assert sorted[i] == t;
    }
    assert sorted == p + sorted[n..];
  }

  /** A prefix of the sorted output is sorted, comes from the input, and every element it
      holds may precede every input element it leaves out. */
  lemma SortedPrefixDominates<T(!new)>(s: seq<T>, le: (T, T) -> bool, n: nat)
    requires TotalPreorder(le)
    requires n <= |s|
    ensures var p := StableSort(s, le)[..n];
      && SortedBy(p, le)
      && (forall t, x | t in p && x in s && x !in p :: le(t, x))
      && multiset(p) <= multiset(s)
  {
    StableSortSorted(s, le);
    SortedSplit(s, StableSort(s, le), le, n);
  }

  /** The elements the comparator ranks equal to `k`, in order. */
  function Ties<T>(s: seq<T>, le: (T, T) -> bool, k: T): (r: seq<T>)
    ensures |r| <= |s|
    ensures forall i | 0 <= i < |r| :: le(r[i], k) && le(k, r[i])
  {
    if s == [] then []
    else if le(s[0], k) && le(k, s[0]) then [s[0]] + Ties(s[1..], le, k)
    else Ties(s[1..], le, k)
  }

  /** Whether `x` counts among the ties of `k`. */
  function TieOf<T>(x: T, le: (T, T) -> bool, k: T): seq<T>
  {
    if le(x, k) && le(k, x) then [x] else []
  }

  /** Two adjacent elements where the first may not precede the second cannot both tie with
      `k`, so swapping them leaves the ties of `k` as they are. */
  lemma TieSwap<T(!new)>(x: T, y: T, le: (T, T) -> bool, k: T, r: seq<T>)
    requires TotalPreorder(le)
    requires !le(x, y)
    ensures TieOf(y, le, k) + (TieOf(x, le, k) + r) == TieOf(x, le, k) + (TieOf(y, le, k) + r)
  {
    if TieOf(x, le, k) == [] {
      assert TieOf(x, le, k) + r == r;
    } else {
      assert le(x, k) && (le(k, y) ==> le(x, y));
      assert TieOf(y, le, k) == [];
    }
  }

  lemma {:induction false} InsertTies<T(!new)>(x: T, t: seq<T>, le: (T, T) -> bool, k: T)
    requires TotalPreorder(le)
    ensures Ties(Insert(x, t, le), le, k) == TieOf(x, le, k) + Ties(t, le, k)
  {
    if t != [] {
      if le(x, t[0]) {
        assert ([x] + t)[1..] == t;
      } else {
        var rest := Insert(x, t[1..], le);
        assert ([t[0]] + rest)[1..] == rest;
        InsertTies(x, t[1..], le, k);
        TieSwap(x, t[0], le, k, Ties(t[1..], le, k));
      }
    }
  }

  lemma {:induction false} TiesAppend<T(!new)>(a: seq<T>, b: seq<T>, le: (T, T) -> bool, k: T)
    ensures Ties(a + b, le, k) == Ties(a, le, k) + Ties(b, le, k)
  {
    if a == [] {
      assert a + b == b;
    } else {
      assert (a + b)[1..] == a[1..] + b;
      TiesAppend(a[1..], b, le, k);
    }
  }

  lemma {:induction false} PrefixIsSubsequence<T>(a: seq<T>, b: seq<T>)
    ensures SubsequenceOf(a, a + b)
  {
    if a != [] {
      assert (a + b)[1..] == a[1..] + b;
      PrefixIsSubsequence(a[1..], b);
    }
  }

  /** Stability: elements the comparator ranks equal keep their relative order. */
  lemma {:induction false} StableSortStable<T(!new)>(s: seq<T>, le: (T, T) -> bool, k: T)
    requires TotalPreorder(le)
    ensures Ties(StableSort(s, le), le, k) == Ties(s, le, k)
  {
    if s != [] {
      StableSortStable(s[1..], le, k);
      InsertTies(s[0], StableSort(s[1..], le), le, k);
    }
  }

  /** Any prefix of the sorted output keeps the relative order of each group of ties. */
  lemma {:induction false} SortedPrefixStable<T(!new)>(s: seq<T>, le: (T, T) -> bool, k: T, n: nat)
    requires TotalPreorder(le)
    requires n <= |s|
    ensures SubsequenceOf(Ties(StableSort(s, le)[..n], le, k), Ties(s, le, k))
  {
    var sorted := StableSort(s, le);
    StableSortStable(s, le, k);
    assert sorted == sorted[..n] + sorted[n..];
    TiesAppend(sorted[..n], sorted[n..], le, k);
    PrefixIsSubsequence(Ties(sorted[..n], le, k), Ties(sorted[n..], le, k));
  }

  predicate NoDuplicates<T(==)>(s: seq<T>)
  {
    forall i, j | 0 <= i < j < |s| :: s[i] != s[j]
  }

  /** Stream.distinct: the first occurrence of each element not in `seen`, in order. */
  function DistinctFrom<T(==,!new)>(s: seq<T>, seen: set<T>): (r: seq<T>)
    ensures NoDuplicates(r)
    ensures forall x :: x in r <==> x in s && x !in seen
  {
    if s == [] then []
    else if s[0] in seen then DistinctFrom(s[1..], seen)
    else
      var rest := DistinctFrom(s[1..], seen + {s[0]});
      assert s[0] !in rest;
      [s[0]] + rest
  }

  function Distinct<T(==,!new)>(s: seq<T>): (r: seq<T>)
    ensures NoDuplicates(r)
    ensures forall x :: x in r <==> x in s
  {
    DistinctFrom(s, {})
  }

  lemma {:induction false} NoDuplicatesMultiplicity<T>(s: seq<T>, x: T)
    requires NoDuplicates(s)
    ensures multiset(s)[x] <= 1
  {
    if s != [] {
      assert s == [s[0]] + s[1..];
      NoDuplicatesMultiplicity(s[1..], x);
      if s[0] == x {
        assert x !in s[1..];
      }
    }
  }

  lemma RepeatedMultiplicity<T>(s: seq<T>, i: nat, j: nat)
    requires i < j < |s| && s[i] == s[j]
    ensures multiset(s)[s[i]] >= 2
  {
    assert s == s[..j] + s[j..];
    assert s[i] in s[..j];
    assert s[j..][0] == s[j];
  }

  /** A reordering of a list without duplicates has none either. */
  lemma PermutationKeepsNoDuplicates<T>(a: seq<T>, b: seq<T>)
    requires multiset(a) == multiset(b)
    requires NoDuplicates(a)
    ensures NoDuplicates(b)
  {
    forall i, j | 0 <= i < j < |b| ensures b[i] != b[j] {
      if b[i] == b[j] {
        RepeatedMultiplicity(b, i, j);
        NoDuplicatesMultiplicity(a, b[i]);
      }
    }
  }

  /** Under an antisymmetric order, a sorted list without duplicates is strictly increasing, and
      two such lists holding the same elements are the same list. */
  lemma {:induction false} SortedDistinctUnique<T(!new)>(a: seq<T>, b: seq<T>, le: (T, T) -> bool)
    requires forall x, y :: le(x, y) && le(y, x) ==> x == y
    requires SortedBy(a, le) && NoDuplicates(a)
    requires SortedBy(b, le) && NoDuplicates(b)
    requires forall x :: x in a <==> x in b
    ensures a == b
  {
    assert a == [] <==> b == [] by {
      if a != [] { assert a[0] in b; }
      if b != [] { assert b[0] in a; }
    }
    if a != [] {
      assert a[0] in b;
      assert b[0] in a;
      var i :| 0 <= i < |b| && b[i] == a[0];
      var j :| 0 <= j < |a| && a[j] == b[0];
      assert a[0] == b[0];
      forall x ensures x in a[1..] <==> x in b[1..] {
        if x in a[1..] {
          var k :| 1 <= k < |a| && a[k] == x;
          assert x != a[0];
          assert x in b;
        }
        if x in b[1..] {
          var k :| 1 <= k < |b| && b[k] == x;
          assert x != b[0];
          assert x in a;
        }
      }
      SortedDistinctUnique(a[1..], b[1..], le);
      assert a == [a[0]] + a[1..] && b == [b[0]] + b[1..];
    }
  }

  predicate AllSucceed<A(!new), B, E>(xs: seq<A>, f: A -> Result<B, E>)
  {
    forall i | 0 <= i < |xs| :: f(xs[i]).Success?
  }

  /** Stream.map(f).collect(toList()) where `f` may throw: every result in order, or the error
      of the first element `f` rejects (the stream stops there). */
  function MapAll<A(!new), B(==), E(==)>(xs: seq<A>, f: A -> Result<B, E>): (r: Result<seq<B>, E>)
    ensures r.Success? <==> AllSucceed(xs, f)
    ensures r.Success? ==> |r.value| == |xs|
    ensures r.Success? ==> forall i | 0 <= i < |xs| :: Success(r.value[i]) == f(xs[i])
    ensures r.Failure? ==>
      exists i | 0 <= i < |xs| :: AllSucceed(xs[..i], f) && f(xs[i]) == Failure(r.error)
  {
    if xs == [] then Success([])
    else
      var first := f(xs[0]);
      if first.Failure? then
        assert AllSucceed(xs[..0], f);
        Failure(first.error)
      else
        var rest := MapAll(xs[1..], f);
        if rest.Failure? then
          var i :| 0 <= i < |xs[1..]| && AllSucceed(xs[1..][..i], f) && f(xs[1..][i]) == Failure(rest.error);
          assert xs[..i + 1] == [xs[0]] + xs[1..][..i];
          assert AllSucceed(xs[..i + 1], f);
          assert !AllSucceed(xs, f) by { assert xs[i + 1] == xs[1..][i]; }
          Failure(rest.error)
        else
          assert forall i | 1 <= i < |xs| :: xs[i] == xs[1..][i - 1];
          Success([first.value] + rest.value)
  }

  /** Position i holds an element of the largest key, and no earlier element has that key. */
  predicate FirstMaximumAt<T>(s: seq<T>, key: T -> real, i: int)
  {
    && 0 <= i < |s|
    && (forall j | 0 <= j < |s| :: key(s[j]) <= key(s[i]))
    && (forall j | 0 <= j < i :: key(s[j]) < key(s[i]))
  }

  /** Position i holds an element of the smallest key, and no earlier element has that key. */
  predicate FirstMinimumAt<T>(s: seq<T>, key: T -> real, i: int)
  {
    && 0 <= i < |s|
    && (forall j | 0 <= j < |s| :: key(s[i]) <= key(s[j]))
    && (forall j | 0 <= j < i :: key(s[i]) < key(s[j]))
  }

  /** Stream.max(Comparator.comparingDouble(key)): a left fold that keeps the accumulated
      element unless the next one is strictly larger. */
  function MaxBy<T(==)>(s: seq<T>, key: T -> real): (r: Option<T>)
    ensures r.None? <==> s == []
    ensures r.Some? ==> exists i | FirstMaximumAt(s, key, i) :: s[i] == r.value
  {
    if s == [] then None
    else
      var front := s[..|s| - 1];
      var last := s[|s| - 1];
      var best := MaxBy(front, key);
      if best.Some? && key(best.value) >= key(last) then
        assert exists i | FirstMaximumAt(s, key, i) :: s[i] == best.value by {
          var i :| FirstMaximumAt(front, key, i) && front[i] == best.value;
          assert s == front + [last];
          assert FirstMaximumAt(s, key, i);
        }
        best
      else
        assert FirstMaximumAt(s, key, |s| - 1) by {
          if best.Some? {
            var i :| FirstMaximumAt(front, key, i) && front[i] == best.value;
          }
          assert s == front + [last];
        }
        Some(last)
  }

  /** Stream.min(Comparator.comparingDouble(key)): keeps the accumulated element unless the
      next one is strictly smaller. */
  function MinBy<T(==)>(s: seq<T>, key: T -> real): (r: Option<T>)
    ensures r.None? <==> s == []
    ensures r.Some? ==> exists i | FirstMinimumAt(s, key, i) :: s[i] == r.value
  {
    if s == [] then None
    else
      var front := s[..|s| - 1];
      var last := s[|s| - 1];
      var best := MinBy(front, key);
      if best.Some? && key(best.value) <= key(last) then
        assert exists i | FirstMinimumAt(s, key, i) :: s[i] == best.value by {
          var i :| FirstMinimumAt(front, key, i) && front[i] == best.value;
          assert s == front + [last];
          assert FirstMinimumAt(s, key, i);
        }
        best
      else
        assert FirstMinimumAt(s, key, |s| - 1) by {
          if best.Some? {
            var i :| FirstMinimumAt(front, key, i) && front[i] == best.value;
          }
          assert s == front + [last];
        }
        Some(last)
  }

  /** DoubleStream.sum over mapToDouble(f), in exact arithmetic. */
  function SumOf<T>(s: seq<T>, f: T -> real): (r: real)
    ensures (forall i | 0 <= i < |s| :: 0.0 <= f(s[i])) ==> 0.0 <= r
  {
    if s == [] then 0.0 else f(s[0]) + SumOf(s[1..], f)
  }

  lemma {:induction false} SumOfAppend<T>(a: seq<T>, b: seq<T>, f: T -> real)
    ensures SumOf(a + b, f) == SumOf(a, f) + SumOf(b, f)
  {
    if a == [] {
      assert a + b == b;
    } else {
      assert (a + b)[1..] == a[1..] + b;
      SumOfAppend(a[1..], b, f);
    }
  }
}
