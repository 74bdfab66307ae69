/**
 * A stable sort by a comparator, standing for `Array.prototype.sort` (which
 * ECMAScript requires to be stable): insertion sort, where each element is
 * placed before the first later element it does not come after.
 */
module Sorting {
  import opened Seqs

  /** Consecutive elements are in order. */
  predicate Sorted<T>(s: seq<T>, le: (T, T) -> bool) {
    forall i :: 0 <= i < |s| - 1 ==> le(s[i], s[i + 1])
  }

  /** Every pair of elements is comparable one way or the other. */
  ghost predicate Total<T(!new)>(le: (T, T) -> bool) {
    forall a, b :: le(a, b) || le(b, a)
  }

  function Insert<T>(x: T, s: seq<T>, le: (T, T) -> bool): (r: seq<T>)
    ensures multiset(r) == multiset(s) + multiset{x}
    ensures |r| == |s| + 1
    ensures r[0] == x || (s != [] && r[0] == s[0])
    decreases |s|
  {
    if s == [] then [x]
    else if le(x, s[0]) then [x] + s
    else
      var r := [s[0]] + Insert(x, s[1..], le);
      assert s == [s[0]] + s[1..];
      r
  }

  /** The elements of `s` sorted by `le`, equal elements keeping their input order. */
  function Sort<T>(s: seq<T>, le: (T, T) -> bool): (r: seq<T>)
    ensures multiset(r) == multiset(s)
    decreases |s|
  {
    if s == [] then []
    else
      assert s == [s[0]] + s[1..];
      Insert(s[0], Sort(s[1..], le), le)
  }

  lemma {:induction false} InsertSorted<T(!new)>(x: T, s: seq<T>, le: (T, T) -> bool)
    requires Total(le) && Sorted(s, le)
    ensures Sorted(Insert(x, s, le), le)
    decreases |s|
  {
    if s != [] && !le(x, s[0]) {
      InsertSorted(x, s[1..], le);
      var t := Insert(x, s[1..], le);
      assert le(s[0], x);
      assert |s| > 1 ==> le(s[0], s[1]);
    }
  }

  /** For a total comparator the result is sorted (and, by its contract, a permutation). */
  lemma {:induction false} SortSorted<T(!new)>(s: seq<T>, le: (T, T) -> bool)
    requires Total(le)
    ensures Sorted(Sort(s, le), le)
    decreases |s|
  {
    if s != [] {
      SortSorted(s[1..], le);
      InsertSorted(s[0], Sort(s[1..], le), le);
    }
  }

  /**
   * Inserting `x` keeps the order, among themselves, of the elements of any
   * class `p` whose members all come before one another: `x` lands before
   * every member of its own class.
   */
  lemma {:induction false} InsertKeepsClass<T(!new)>(x: T, s: seq<T>, le: (T, T) -> bool, p: T -> bool)
    requires forall a, b :: p(a) && p(b) ==> le(a, b)
    ensures Filter(Insert(x, s, le), p) == Filter([x] + s, p)
    decreases |s|
  {
    if s != [] && !le(x, s[0]) {
      var y, rest := s[0], s[1..];
      var hx, hy := (if p(x) then [x] else []), (if p(y) then [y] else []);
      calc {
        Filter(Insert(x, s, le), p);
        { FilterCons(y, Insert(x, rest, le), p); }
        hy + Filter(Insert(x, rest, le), p);
        { InsertKeepsClass(x, rest, le, p); FilterCons(x, rest, p); }
        hy + (hx + Filter(rest, p));
        { assert hx == [] || hy == []; }
        hx + (hy + Filter(rest, p));
        { FilterCons(y, rest, p); assert s == [y] + rest; }
        hx + Filter(s, p);
        { FilterCons(x, s, p); }
        Filter([x] + s, p);
      }
    }
  }

  /**
   * Stability: the elements of a class whose members all come before one
   * another (equally ranked elements) keep their input order.
   */
  lemma {:induction false} SortStable<T(!new)>(s: seq<T>, le: (T, T) -> bool, p: T -> bool)
    requires forall a, b :: p(a) && p(b) ==> le(a, b)
    ensures Filter(Sort(s, le), p) == Filter(s, p)
    decreases |s|
  {
    if s != [] {
      var rest := s[1..];
      assert s == [s[0]] + rest;
      SortStable(rest, le, p);
      InsertKeepsClass(s[0], Sort(rest, le), le, p);
      FilterCons(s[0], Sort(rest, le), p);
      FilterCons(s[0], rest, p);
    }
  }
}
