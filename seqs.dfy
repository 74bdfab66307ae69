/**
 * Sequence helpers mirroring the JavaScript array and Set operations the
 * program uses: `filter`, `slice(0, n)` and the insertion-ordered `Set`.
 */
module Seqs {

  /** The elements of `s` that satisfy `p`, in their original order (`Array.prototype.filter`). */
  function Filter<T(!new)>(s: seq<T>, p: T -> bool): (r: seq<T>)
    ensures |r| <= |s|
    ensures forall x :: x in r <==> x in s && p(x)
    decreases |s|
  {
    if s == [] then []
    else
      var init, last := s[..|s| - 1], s[|s| - 1];
      assert s == init + [last];
      Filter(init, p) + (if p(last) then [last] else [])
  }

  lemma FilterAppend<T(!new)>(s: seq<T>, x: T, p: T -> bool)
    ensures Filter(s + [x], p) == Filter(s, p) + (if p(x) then [x] else [])
  {
    assert (s + [x])[..|s|] == s;
  }

  /** Filtering distributes over concatenation. */
  lemma {:induction false} FilterConcat<T(!new)>(a: seq<T>, b: seq<T>, p: T -> bool)
    ensures Filter(a + b, p) == Filter(a, p) + Filter(b, p)
    decreases |b|
  {
    if b == [] {
      assert a + b == a;
    } else {
      var init, last := b[..|b| - 1], b[|b| - 1];
      var tail := if p(last) then [last] else [];
      var ab := a + b;
      assert ab[..|ab| - 1] == a + init;
      calc {
        Filter(ab, p);
        Filter(a + init, p) + tail;
        { FilterConcat(a, init, p); }
        (Filter(a, p) + Filter(init, p)) + tail;
        Filter(a, p) + (Filter(init, p) + tail);
      }
    }
  }

  /** Filtering a sequence with a first element `x` (`[x, ...s].filter(p)`). */
  lemma FilterCons<T(!new)>(x: T, s: seq<T>, p: T -> bool)
    ensures Filter([x] + s, p) == (if p(x) then [x] else []) + Filter(s, p)
  {
    FilterConcat([x], s, p);
    assert [x] == [] + [x];
    FilterAppend([], x, p);
  }

  /** Filtering keeps everything when every element passes. */
  lemma {:induction false} FilterAll<T(!new)>(s: seq<T>, p: T -> bool)
    requires forall x :: x in s ==> p(x)
    ensures Filter(s, p) == s
    decreases |s|
  {
    if s != [] {
      var init := s[..|s| - 1];
      assert s == init + [s[|s| - 1]];
      FilterAll(init, p);
    }
  }

  /** Two chained filters are one filter by the conjunction (`a.filter(p).filter(q)`). */
  lemma {:induction false} FilterFilter<T(!new)>(s: seq<T>, p: T -> bool, q: T -> bool, both: T -> bool)
    requires forall x :: both(x) == (p(x) && q(x))
    ensures Filter(Filter(s, p), q) == Filter(s, both)
    decreases |s|
  {
    if s != [] {
      var init, last := s[..|s| - 1], s[|s| - 1];
      assert s == init + [last];
      FilterFilter(init, p, q, both);
      FilterAppend(init, last, p);
      FilterAppend(Filter(init, p), last, q);
      FilterAppend(init, last, both);
      if p(last) {
        assert Filter(s, p) == Filter(init, p) + [last];
      } else {
        assert Filter(s, p) == Filter(init, p);
        assert Filter(s, both) == Filter(init, both);
      }
    }
  }

  /** Filtering by two predicates that agree everywhere gives the same result. */
  lemma {:induction false} FilterCongruent<T(!new)>(s: seq<T>, p: T -> bool, q: T -> bool)
    requires forall x :: p(x) == q(x)
    ensures Filter(s, p) == Filter(s, q)
    decreases |s|
  {
    if s != [] {
      FilterCongruent(s[..|s| - 1], p, q);
    }
  }

  /** The first `n` elements, or all of them when there are fewer (`s.slice(0, n)`). */
  function Take<T(!new)>(s: seq<T>, n: nat): (r: seq<T>)
    ensures |r| == if n < |s| then n else |s|
    ensures r == s[..|r|]
  {
    if n < |s| then s[..n] else s
  }

  predicate NoDup<T(==,!new)>(s: seq<T>) {
    forall i, j :: 0 <= i < j < |s| ==> s[i] != s[j]
  }

  /** An element of a duplicate-free sequence occurs in it at most once. */
  lemma {:induction false} NoDupCount<T(!new)>(s: seq<T>, x: T)
    requires NoDup(s)
    ensures multiset(s)[x] <= 1
    decreases |s|
  {
    if s != [] {
      assert s == [s[0]] + s[1..];
      NoDupCount(s[1..], x);
      if x == s[0] {
        assert x !in s[1..];
      }
    }
  }

  /** A permutation of a duplicate-free sequence is duplicate-free. */
  lemma NoDupPermutation<T(!new)>(a: seq<T>, b: seq<T>)
    requires NoDup(a) && multiset(a) == multiset(b)
    ensures NoDup(b)
  {
    forall i, j | 0 <= i < j < |b| ensures b[i] != b[j] {
      NoDupCount(a, b[i]);
      SingleOccurrence(b, i, j);
    }
  }

  /** Two positions holding the same element make it occur twice. */
  lemma SingleOccurrence<T(!new)>(s: seq<T>, i: nat, j: nat)
    requires i < j < |s|
    ensures multiset(s)[s[i]] <= 1 ==> s[i] != s[j]
  {
    assert s == s[..i] + [s[i]] + s[i + 1..j] + [s[j]] + s[j + 1..];
  }

  /**
   * Adds the elements of `s`, in order, to the insertion-ordered set `acc`
   * (`Set.prototype.add` applied to each): an element already present keeps
   * its place, a new one goes at the end.
   */
  function AddEach<T(==,!new)>(acc: seq<T>, s: seq<T>): (r: seq<T>)
    ensures NoDup(acc) ==> NoDup(r)
    ensures forall x :: x in r <==> x in acc || x in s
    ensures |acc| <= |r| && r[..|acc|] == acc
    decreases |s|
  {
    if s == [] then acc
    else AddEach(if s[0] in acc then acc else acc + [s[0]], s[1..])
  }

  /** The distinct elements of `s` in order of first appearance (`Array.from(new Set(s))`). */
  function Distinct<T(==,!new)>(s: seq<T>): (r: seq<T>)
    ensures NoDup(r)
    ensures forall x :: x in r <==> x in s
  {
    AddEach([], s)
  }

  /** Adding `a + b` is adding `a` and then `b`. */
  lemma {:induction false} AddEachAppend<T(!new)>(acc: seq<T>, a: seq<T>, b: seq<T>)
    ensures AddEach(acc, a + b) == AddEach(AddEach(acc, a), b)
    decreases |a|
  {
    if a != [] {
      var acc' := if a[0] in acc then acc else acc + [a[0]];
      assert (a + b)[0] == a[0] && (a + b)[1..] == a[1..] + b;
      assert AddEach(acc, a + b) == AddEach(acc', a[1..] + b);
      assert AddEach(acc, a) == AddEach(acc', a[1..]);
      AddEachAppend(acc', a[1..], b);
    } else {
      assert a + b == b;
    }
  }

  /** Adding one element to the set: it is appended exactly when it is new. */
  lemma DistinctSnoc<T(!new)>(s: seq<T>, x: T)
    ensures Distinct(s + [x]) == if x in s then Distinct(s) else Distinct(s) + [x]
  {
    AddEachAppend([], s, [x]);
    assert AddEach(Distinct(s), [x]) == AddEach(if x in Distinct(s) then Distinct(s) else Distinct(s) + [x], []);
  }

  /**
   * First-appearance order: the distinct elements of a prefix are a prefix of
   * the distinct elements of the whole sequence.
   */
  lemma DistinctPrefix<T(!new)>(s: seq<T>, k: nat)
    requires k <= |s|
    ensures |Distinct(s[..k])| <= |Distinct(s)|
    ensures Distinct(s[..k]) == Distinct(s)[..|Distinct(s[..k])|]
  {
    assert s == s[..k] + s[k..];
    AddEachAppend([], s[..k], s[k..]);
  }
}
