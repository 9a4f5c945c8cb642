/**
 * The JavaScript array operations the planner is built from, as functions on
 * sequences: `filter`, `map` with a replacing callback, `find`, `some` and a
 * comparator `sort`. Callbacks are total Dafny functions.
 */
module Seqs {
  import opened Wrappers

  /** `a` occurs in `b` in the same order, possibly with gaps. */
  predicate IsSubsequence<T(==)>(a: seq<T>, b: seq<T>)
    decreases |b|
  {
    a == [] || (b != [] && ((a[0] == b[0] && IsSubsequence(a[1..], b[1..])) || IsSubsequence(a, b[1..])))
  }

  /** No two elements of `s` share a key. */
  predicate DistinctBy<T, K(==)>(s: seq<T>, key: T -> K) {
    forall i, j :: 0 <= i < j < |s| ==> key(s[i]) != key(s[j])
  }

  // ---------------------------------------------------------------- filter

  /** `s.filter(p)`: each element is kept exactly as often as it occurs, when it passes `p`. */
  function Filter<T(==,!new)>(s: seq<T>, p: T -> bool): (r: seq<T>)
    ensures |r| <= |s|
    ensures forall x :: x in r <==> x in s && p(x)
  {
    if s == [] then []
    else
      assert s == [s[0]] + s[1..];
      if p(s[0]) then [s[0]] + Filter(s[1..], p) else Filter(s[1..], p)
  }

  /** Each element passing `p` is kept exactly as often as it occurs, and no other element is kept. */
  lemma {:induction false} FilterCounts<T(!new)>(s: seq<T>, p: T -> bool)
    ensures forall x :: multiset(Filter(s, p))[x] == if p(x) then multiset(s)[x] else 0
  {
    if s != [] {
      FilterCounts(s[1..], p);
      assert s == [s[0]] + s[1..];
    }
  }

  lemma {:induction false} FilterIsSubsequence<T(!new)>(s: seq<T>, p: T -> bool)
    ensures IsSubsequence(Filter(s, p), s)
  {
    if s != [] {
      FilterIsSubsequence(s[1..], p);
      if !p(s[0]) && Filter(s[1..], p) != [] {
        assert IsSubsequence(Filter(s, p), s[1..]);
      }
    }
  }

  /** Filtering with a predicate every element passes changes nothing. */
  lemma {:induction false} FilterKeepsAll<T(!new)>(s: seq<T>, p: T -> bool)
    requires forall i :: 0 <= i < |s| ==> p(s[i])
    ensures Filter(s, p) == s
  {
    if s != [] {
      FilterKeepsAll(s[1..], p);
    }
  }

  /** Two chained filters are one filter by the conjunction. */
  lemma {:induction false} FilterFilter<T(!new)>(s: seq<T>, p: T -> bool, q: T -> bool, pq: T -> bool)
    requires forall x :: pq(x) == (p(x) && q(x))
    ensures Filter(Filter(s, p), q) == Filter(s, pq)
  {
    if s != [] {
      FilterFilter(s[1..], p, q, pq);
    }
  }

  /** Filters by predicates that agree everywhere are equal. */
  lemma {:induction false} FilterExtensional<T(!new)>(s: seq<T>, p: T -> bool, q: T -> bool)
    requires forall x :: p(x) == q(x)
    ensures Filter(s, p) == Filter(s, q)
  {
    if s != [] {
      FilterExtensional(s[1..], p, q);
    }
  }

  /** Filters by predicates that never hold together count, between them, exactly as many as their disjunction. */
  lemma {:induction false} FilterDisjointCount<T(!new)>(s: seq<T>, p: T -> bool, q: T -> bool, pq: T -> bool)
    requires forall x :: !(p(x) && q(x))
    requires forall x :: pq(x) == (p(x) || q(x))
    ensures |Filter(s, p)| + |Filter(s, q)| == |Filter(s, pq)|
  {
    if s != [] {
      FilterDisjointCount(s[1..], p, q, pq);
    }
  }

  lemma {:induction false} FilterKeepsDistinct<T(!new), K>(s: seq<T>, p: T -> bool, key: T -> K)
    requires DistinctBy(s, key)
    ensures DistinctBy(Filter(s, p), key)
  {
    if s != [] {
      FilterKeepsDistinct(s[1..], p, key);
      if p(s[0]) {
        var r := Filter(s, p);
        forall i, j | 0 <= i < j < |r| ensures key(r[i]) != key(r[j]) {
          if i == 0 {
            assert r[j] in s[1..];
            var k :| 0 <= k < |s[1..]| && s[1..][k] == r[j];
            assert s[k + 1] == r[j];
          }
        }
      }
    }
  }

  /** Filtering a list with one more element at the end filters the list and then that element. */
  lemma {:induction false} FilterSnoc<T(!new)>(s: seq<T>, x: T, p: T -> bool)
    ensures Filter(s + [x], p) == Filter(s, p) + (if p(x) then [x] else [])
  {
    if s == [] {
      assert [] + [x] == [x];
      assert [x][1..] == [];
    } else {
      FilterSnoc(s[1..], x, p);
      assert (s + [x])[1..] == s[1..] + [x];
    }
  }

  /** Filtering a list with one more element in front filters that element and then the list. */
  lemma FilterCons<T(!new)>(x: T, s: seq<T>, p: T -> bool)
    ensures Filter([x] + s, p) == (if p(x) then [x] else []) + Filter(s, p)
  {
    assert ([x] + s)[1..] == s;
  }

  /** A filter no element passes is empty. */
  lemma FilterNone<T(!new)>(s: seq<T>, p: T -> bool)
    requires forall i :: 0 <= i < |s| ==> !p(s[i])
    ensures Filter(s, p) == []
  {
  }

  // ------------------------------------------------------------------- map

  /** `s.map(y => p(y) ? x : y)`: every element passing `p` is replaced by `x`. */
  function ReplaceWhere<T>(s: seq<T>, p: T -> bool, x: T): (r: seq<T>)
    ensures |r| == |s|
    ensures forall i :: 0 <= i < |s| ==> r[i] == if p(s[i]) then x else s[i]
  {
    if s == [] then [] else [if p(s[0]) then x else s[0]] + ReplaceWhere(s[1..], p, x)
  }

  /**
   * When the replacement itself passes `p`, the elements failing `p` are
   * exactly those of `s`, in the same order.
   */
  lemma {:induction false} ReplaceWhereKeepsOthers<T(!new)>(s: seq<T>, p: T -> bool, notP: T -> bool, x: T)
    requires p(x)
    requires forall y :: notP(y) == !p(y)
    ensures Filter(ReplaceWhere(s, p, x), notP) == Filter(s, notP)
  {
    if s != [] {
      ReplaceWhereKeepsOthers(s[1..], p, notP, x);
      assert ReplaceWhere(s, p, x) == [if p(s[0]) then x else s[0]] + ReplaceWhere(s[1..], p, x);
    }
  }

  /** A replacement with the same key as the elements it replaces keeps keys distinct. */
  lemma ReplaceWhereKeepsDistinct<T, K>(s: seq<T>, p: T -> bool, x: T, key: T -> K)
    requires forall y :: p(y) ==> key(y) == key(x)
    requires DistinctBy(s, key)
    ensures DistinctBy(ReplaceWhere(s, p, x), key)
  {
    var r := ReplaceWhere(s, p, x);
    assert forall i :: 0 <= i < |s| ==> key(r[i]) == key(s[i]);
  }

  /** With a single element passing `p`, the replacement is a single update. */
  lemma ReplaceWhereSingle<T>(s: seq<T>, p: T -> bool, x: T, k: nat)
    requires k < |s| && p(s[k])
    requires forall i :: 0 <= i < |s| && i != k ==> !p(s[i])
    ensures ReplaceWhere(s, p, x) == s[k := x]
  {
  }

  /** Appending or prepending an element with a key not yet present keeps keys distinct. */
  lemma AddFreshKeepsDistinct<T, K>(s: seq<T>, x: T, key: T -> K)
    requires DistinctBy(s, key)
    requires forall i :: 0 <= i < |s| ==> key(s[i]) != key(x)
    ensures DistinctBy(s + [x], key) && DistinctBy([x] + s, key)
  {
  }

  // ------------------------------------------------------------ find, some

  /** `k` is the index of the first element passing `p`. */
  predicate FirstMatchAt<T>(s: seq<T>, p: T -> bool, k: int) {
    0 <= k < |s| && p(s[k]) && forall j :: 0 <= j < k ==> !p(s[j])
  }

  /** `s.find(p)`: the first element passing `p`, if any. */
  function Find<T(==)>(s: seq<T>, p: T -> bool): (r: Option<T>)
    ensures r.None? <==> forall i :: 0 <= i < |s| ==> !p(s[i])
    ensures r.Some? ==> exists k :: FirstMatchAt(s, p, k) && s[k] == r.value
  {
    if s == [] then None
    else if p(s[0]) then
      assert FirstMatchAt(s, p, 0);
      Some(s[0])
    else
      var r := Find(s[1..], p);
      if r.Some? then
        var k :| FirstMatchAt(s[1..], p, k) && s[1..][k] == r.value;
        assert FirstMatchAt(s, p, k + 1);
        r
      else r
  }

  /** `s.some(p)`. */
  function Any<T>(s: seq<T>, p: T -> bool): (r: bool)
    ensures r <==> exists i :: 0 <= i < |s| && p(s[i])
  {
    if s == [] then false
    else p(s[0]) || (Any(s[1..], p) && assert forall i :: 0 <= i < |s[1..]| ==> s[1..][i] == s[i + 1]; true)
  }

  /** The source asks `find` and `some` the same question; they agree. */
  lemma AnyIffFind<T>(s: seq<T>, p: T -> bool)
    ensures Any(s, p) <==> Find(s, p).Some?
  {
  }

  // ------------------------------------------------------------------ sort

  /** `leq` is a total preorder: a comparator a JavaScript sort may rely on. */
  ghost predicate TotalPreorder<T(!new)>(leq: (T, T) -> bool) {
    && (forall a, b :: leq(a, b) || leq(b, a))
    && (forall a, b, c :: leq(a, b) && leq(b, c) ==> leq(a, c))
  }

  predicate SortedBy<T>(s: seq<T>, leq: (T, T) -> bool) {
    forall i, j :: 0 <= i < j < |s| ==> leq(s[i], s[j])
  }

  /** Inserts `x` after every element of `s` that may precede it (so ties keep their order). */
  function Insert<T>(x: T, s: seq<T>, leq: (T, T) -> bool): seq<T> {
    if s == [] then [x]
    else if leq(s[0], x) then [s[0]] + Insert(x, s[1..], leq) else [x] + s
  }

  /** Inserting adds exactly one copy of `x` and keeps everything else. */
  lemma {:induction false} InsertPermutes<T>(x: T, s: seq<T>, leq: (T, T) -> bool)
    ensures multiset(Insert(x, s, leq)) == multiset(s) + multiset{x}
  {
    if s != [] {
      assert s == [s[0]] + s[1..];
      if leq(s[0], x) {
        InsertPermutes(x, s[1..], leq);
      }
    }
  }

  /** `[...s].sort(cmp)` where `leq(a, b)` is `cmp(a, b) <= 0`: a stable insertion sort. */
  function SortBy<T>(s: seq<T>, leq: (T, T) -> bool): seq<T> {
    if s == [] then []
    else Insert(s[|s| - 1], SortBy(s[..|s| - 1], leq), leq)
  }

  /** The sort returns a permutation of its input. */
  lemma {:induction false} SortByPermutes<T>(s: seq<T>, leq: (T, T) -> bool)
    ensures multiset(SortBy(s, leq)) == multiset(s)
  {
    if s != [] {
      var init, last := s[..|s| - 1], s[|s| - 1];
      SortByPermutes(init, leq);
      InsertPermutes(last, SortBy(init, leq), leq);
      assert SortBy(s, leq) == Insert(last, SortBy(init, leq), leq);
      assert s == init + [last];
    }
  }

  lemma {:induction false} InsertSorted<T(!new)>(x: T, s: seq<T>, leq: (T, T) -> bool)
    requires TotalPreorder(leq)
    requires SortedBy(s, leq)
    ensures SortedBy(Insert(x, s, leq), leq)
  {
    if s != [] && leq(s[0], x) {
      var t := Insert(x, s[1..], leq);
      InsertSorted(x, s[1..], leq);
      InsertPermutes(x, s[1..], leq);
      forall j | 0 <= j < |t| ensures leq(s[0], t[j]) {
        assert t[j] in multiset(t);
        if t[j] != x {
          assert t[j] in multiset(s[1..]);
          var k :| 0 <= k < |s[1..]| && s[1..][k] == t[j];
          assert s[k + 1] == t[j];
        }
      }
    }
  }

  /** The sorted view is ordered by `leq` and is a permutation of its input. */
  lemma {:induction false} SortBySorted<T(!new)>(s: seq<T>, leq: (T, T) -> bool)
    requires TotalPreorder(leq)
    ensures SortedBy(SortBy(s, leq), leq)
    ensures multiset(SortBy(s, leq)) == multiset(s)
    decreases |s|
  {
    if s != [] {
      SortBySorted(s[..|s| - 1], leq);
      InsertSorted(s[|s| - 1], SortBy(s[..|s| - 1], leq), leq);
    }
    SortByPermutes(s, leq);
  }

  /** The elements `leq` ranks level with `z`: the ties a stable sort must keep in order. */
  function Tied<T>(leq: (T, T) -> bool, z: T): T -> bool {
    (y: T) => leq(z, y) && leq(y, z)
  }

  /**
   * Inserting into a sorted list puts `x` after every element tied with it,
   * so the elements of each tie class keep their order.
   */
  lemma {:induction false} InsertStable<T(!new)>(x: T, s: seq<T>, leq: (T, T) -> bool, z: T)
    requires TotalPreorder(leq)
    requires SortedBy(s, leq)
    ensures Filter(Insert(x, s, leq), Tied(leq, z)) == Filter(s, Tied(leq, z)) + (if Tied(leq, z)(x) then [x] else [])
  {
    var tied := Tied(leq, z);
    if s == [] {
      FilterCons(x, [], tied);
    } else if leq(s[0], x) {
      assert SortedBy(s[1..], leq);
      InsertStable(x, s[1..], leq, z);
      InsertPastFilter(x, s, leq, tied);
    } else {
      FilterCons(x, s, tied);
      if tied(x) {
        NoTiesAfterGreater(x, s, leq, z);
      }
    }
  }

  /** Inserting past the head: the head's filter part stays in front, for `InsertStable`. */
  lemma InsertPastFilter<T(!new)>(x: T, s: seq<T>, leq: (T, T) -> bool, p: T -> bool)
    requires s != [] && leq(s[0], x)
    requires Filter(Insert(x, s[1..], leq), p) == Filter(s[1..], p) + (if p(x) then [x] else [])
    ensures Filter(Insert(x, s, leq), p) == Filter(s, p) + (if p(x) then [x] else [])
  {
    var rest := Insert(x, s[1..], leq);
    var head := if p(s[0]) then [s[0]] else [];
    var tail := if p(x) then [x] else [];
    assert Insert(x, s, leq) == [s[0]] + rest;
    calc {
      Filter(Insert(x, s, leq), p);
      Filter([s[0]] + rest, p);
      { FilterCons(s[0], rest, p); }
      head + Filter(rest, p);
      head + (Filter(s[1..], p) + tail);
      (head + Filter(s[1..], p)) + tail;
      { FilterCons(s[0], s[1..], p); assert [s[0]] + s[1..] == s; }
      Filter(s, p) + tail;
    }
  }

  /** In a sorted list whose head ranks above `x`, nothing is tied with `x`. */
  lemma NoTiesAfterGreater<T(!new)>(x: T, s: seq<T>, leq: (T, T) -> bool, z: T)
    requires TotalPreorder(leq)
    requires SortedBy(s, leq)
    requires s != [] && !leq(s[0], x) && Tied(leq, z)(x)
    ensures Filter(s, Tied(leq, z)) == []
  {
    var tied := Tied(leq, z);
    forall i | 0 <= i < |s| ensures !tied(s[i]) {
    }
    FilterNone(s, tied);
  }

  /**
   * `SortBy` is stable: the elements tied with any `z` appear in the sorted
   * list in the order they had in the input.
   */
  lemma {:induction false} SortByStable<T(!new)>(s: seq<T>, leq: (T, T) -> bool, z: T)
    requires TotalPreorder(leq)
    ensures Filter(SortBy(s, leq), Tied(leq, z)) == Filter(s, Tied(leq, z))
    decreases |s|
  {
    if s != [] {
      var init, last := s[..|s| - 1], s[|s| - 1];
      SortByStable(init, leq, z);
      SortBySorted(init, leq);
      InsertStable(last, SortBy(init, leq), leq, z);
      SortBySnocFilter(s, leq, Tied(leq, z));
    }
  }

  /** How a filter of the sorted list follows from one of the sorted prefix, for `SortByStable`. */
  lemma SortBySnocFilter<T(!new)>(s: seq<T>, leq: (T, T) -> bool, p: T -> bool)
    requires s != []
    requires var init, last := s[..|s| - 1], s[|s| - 1];
      && Filter(Insert(last, SortBy(init, leq), leq), p) == Filter(SortBy(init, leq), p) + (if p(last) then [last] else [])
      && Filter(SortBy(init, leq), p) == Filter(init, p)
    ensures Filter(SortBy(s, leq), p) == Filter(s, p)
  {
    var init, last := s[..|s| - 1], s[|s| - 1];
    assert s == init + [last];
    FilterSnoc(init, last, p);
  }
}
