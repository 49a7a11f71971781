/**
 * `Array.prototype.sort` with a numeric comparator `rank(a) - rank(b)`, as the
 * application calls it on object keys (`parseInt(a) - parseInt(b)`), on stored
 * transcripts (`new Date(a.startTime) - new Date(b.startTime)`) and as the
 * `ORDER BY` of the duration queries. The engine's sort is stable; it is
 * modelled as a stable insertion sort. A rank of `None` is NaN: a comparison
 * involving it is never "less than", so such an element is never moved past.
 */
module Sorting {
  import opened Common

  /** The comparator says `a` must come before `b`. */
  predicate Before(ra: Option<int>, rb: Option<int>) {
    ra.Some? && rb.Some? && ra.value < rb.value
  }

  /** Insert `x` after the longest suffix of `sorted` that it must not follow. */
  function Insert<T>(sorted: seq<T>, x: T, rank: T -> Option<int>): (r: seq<T>)
    ensures multiset(r) == multiset(sorted) + multiset{x}
    ensures |r| == |sorted| + 1
    decreases |sorted|
  {
    if |sorted| == 0 then [x]
    else
      var last := sorted[|sorted| - 1];
      var init := sorted[..|sorted| - 1];
      assert sorted == init + [last];
      if Before(rank(x), rank(last)) then Insert(init, x, rank) + [last]
      else sorted + [x]
  }

  /** The order the stable sort leaves `s` in. */
  function SortBy<T>(s: seq<T>, rank: T -> Option<int>): (r: seq<T>)
    ensures multiset(r) == multiset(s)
    ensures |r| == |s|
    decreases |s|
  {
    if |s| == 0 then []
    else
      assert s == s[..|s| - 1] + [s[|s| - 1]];
      Insert(SortBy(s[..|s| - 1], rank), s[|s| - 1], rank)
  }

  predicate AllRanked<T>(s: seq<T>, rank: T -> Option<int>) {
    forall i :: 0 <= i < |s| ==> rank(s[i]).Some?
  }

  /** Ranks never decrease along `s`. */
  predicate Ascending<T>(s: seq<T>, rank: T -> Option<int>) {
    forall i, j :: 0 <= i < j < |s| ==> !Before(rank(s[j]), rank(s[i]))
  }

  lemma {:induction false} InsertAscending<T>(sorted: seq<T>, x: T, rank: T -> Option<int>)
    requires AllRanked(sorted, rank) && rank(x).Some?
    requires Ascending(sorted, rank)
    ensures Ascending(Insert(sorted, x, rank), rank)
    ensures AllRanked(Insert(sorted, x, rank), rank)
    decreases |sorted|
  {
    var r := Insert(sorted, x, rank);
    forall i | 0 <= i < |r| ensures rank(r[i]).Some? {
      assert r[i] in multiset(r);
    }
    if |sorted| > 0 {
      var last := sorted[|sorted| - 1];
      var init := sorted[..|sorted| - 1];
      if Before(rank(x), rank(last)) {
        InsertAscending(init, x, rank);
        var mid := Insert(init, x, rank);
        assert r == mid + [last];
        forall i | 0 <= i < |mid| ensures !Before(rank(last), rank(mid[i])) {
          assert mid[i] in multiset(init) + multiset{x};
          if mid[i] in multiset(init) {
            var k :| 0 <= k < |init| && init[k] == mid[i];
            assert sorted[k] == init[k] && sorted[|sorted| - 1] == last;
          }
        }
      }
    }
  }

  /** When every key has a numeric rank, the sort orders them by ascending rank. */
  lemma {:induction false} SortByAscending<T>(s: seq<T>, rank: T -> Option<int>)
    requires AllRanked(s, rank)
    ensures Ascending(SortBy(s, rank), rank)
    decreases |s|
  {
    if |s| > 0 {
      var init := s[..|s| - 1];
      assert AllRanked(init, rank) by {
        forall i | 0 <= i < |init| ensures rank(init[i]).Some? { assert init[i] == s[i]; }
      }
      SortByAscending(init, rank);
      var sorted := SortBy(init, rank);
      assert AllRanked(sorted, rank) by {
        forall i | 0 <= i < |sorted| ensures rank(sorted[i]).Some? {
          assert sorted[i] in multiset(init);
        }
      }
      InsertAscending(sorted, s[|s| - 1], rank);
    }
  }

  /** A sequence already in ascending order is left as it is. */
  lemma {:induction false} SortByAscendingIsIdentity<T>(s: seq<T>, rank: T -> Option<int>)
    requires Ascending(s, rank)
    ensures SortBy(s, rank) == s
    decreases |s|
  {
    if |s| > 0 {
      var init := s[..|s| - 1];
      assert Ascending(init, rank);
      SortByAscendingIsIdentity(init, rank);
      assert s == init + [s[|s| - 1]];
      if |init| > 0 {
        assert !Before(rank(s[|s| - 1]), rank(init[|init| - 1]));
      }
    }
  }
}
