/**
 * A JavaScript `Set` of strings as the application uses it: a sequence
 * without repetitions in insertion order, which is the order a `Set`
 * iterates in (`Array.from(set)`, `[...new Set(xs)]`).
 */
module JsSets {

  predicate NoDup(s: seq<string>) {
    forall i, j :: 0 <= i < j < |s| ==> s[i] != s[j]
  }

  /** `set.add(v)`: appended when new, otherwise unchanged. */
  function Add(s: seq<string>, v: string): (r: seq<string>)
    ensures v in s ==> r == s
    ensures v !in s ==> r == s + [v]
  {
    if v in s then s else s + [v]
  }

  /** `set.delete(v)`: every other id keeps its place. */
  function Remove(s: seq<string>, v: string): (r: seq<string>)
    ensures |r| <= |s|
    decreases |s|
  {
    if |s| == 0 then []
    else
      var init := Remove(s[..|s| - 1], v);
      if s[|s| - 1] == v then init else init + [s[|s| - 1]]
  }

  lemma AddSpec(s: seq<string>, v: string)
    requires NoDup(s)
    ensures NoDup(Add(s, v)) && forall x :: x in Add(s, v) <==> x in s || x == v
  {
  }

  lemma {:induction false} RemoveSpec(s: seq<string>, v: string)
    requires NoDup(s)
    ensures NoDup(Remove(s, v))
    ensures forall x :: x in Remove(s, v) <==> x in s && x != v
    decreases |s|
  {
    if |s| > 0 {
      var init := s[..|s| - 1];
      assert forall k :: 0 <= k < |init| ==> init[k] == s[k];
      RemoveSpec(init, v);
      assert forall x :: x in s <==> x in init || x == s[|s| - 1];
      assert s[|s| - 1] !in init;
    }
  }

  function AddAll(s: seq<string>, vs: seq<string>): seq<string>
    decreases |vs|
  {
    if |vs| == 0 then s else Add(AddAll(s, vs[..|vs| - 1]), vs[|vs| - 1])
  }

  function RemoveAll(s: seq<string>, vs: seq<string>): seq<string>
    decreases |vs|
  {
    if |vs| == 0 then s else Remove(RemoveAll(s, vs[..|vs| - 1]), vs[|vs| - 1])
  }

  lemma {:induction false} AddAllSpec(s: seq<string>, vs: seq<string>)
    requires NoDup(s)
    ensures NoDup(AddAll(s, vs))
    ensures forall x :: x in AddAll(s, vs) <==> x in s || x in vs
    decreases |vs|
  {
    if |vs| > 0 {
      var init := vs[..|vs| - 1];
      AddAllSpec(s, init);
      AddSpec(AddAll(s, init), vs[|vs| - 1]);
      assert forall x :: x in vs <==> x in init || x == vs[|vs| - 1];
    }
  }

  lemma {:induction false} RemoveAllSpec(s: seq<string>, vs: seq<string>)
    requires NoDup(s)
    ensures NoDup(RemoveAll(s, vs))
    ensures forall x :: x in RemoveAll(s, vs) <==> x in s && x !in vs
    decreases |vs|
  {
    if |vs| > 0 {
      var init := vs[..|vs| - 1];
      RemoveAllSpec(s, init);
      RemoveSpec(RemoveAll(s, init), vs[|vs| - 1]);
      assert forall x :: x in vs <==> x in init || x == vs[|vs| - 1];
    }
  }

  lemma {:induction false} RemoveUntouched(s: seq<string>, v: string)
    requires v !in s
    ensures Remove(s, v) == s
    decreases |s|
  {
    if |s| > 0 {
      RemoveUntouched(s[..|s| - 1], v);
      assert s[..|s| - 1] + [s[|s| - 1]] == s;
    }
  }

  /** `[...new Set(xs)]`: each value once, at its first occurrence. */
  function Distinct(xs: seq<string>): seq<string> {
    AddAll([], xs)
  }

  /** Position of the first occurrence of `x` in `xs`. */
  function FirstIndex(xs: seq<string>, x: string): (r: nat)
    requires x in xs
    ensures r < |xs| && xs[r] == x && x !in xs[..r]
  {
    if xs[0] == x then 0
    else
      var r := FirstIndex(xs[1..], x);
      assert xs[..r + 1] == [xs[0]] + xs[1..][..r];
      1 + r
  }

  /** Any position that holds `x` with no `x` before it is the first one. */
  lemma FirstIndexUnique(xs: seq<string>, x: string, k: nat)
    requires k < |xs| && xs[k] == x && x !in xs[..k]
    ensures FirstIndex(xs, x) == k
  {
    var r := FirstIndex(xs, x);
    assert xs[r] == xs[k];
  }

  /** The first occurrence is at or before any occurrence. */
  lemma FirstIndexBefore(xs: seq<string>, x: string, k: nat)
    requires k < |xs| && xs[k] == x
    ensures FirstIndex(xs, x) <= k
  {
    var r := FirstIndex(xs, x);
    assert xs[r] == xs[k];
  }

  /**
   * The distinct values are exactly the values, without repetitions, in
   * the order of their first occurrences.
   */
  lemma {:induction false} DistinctSpec(xs: seq<string>)
    ensures NoDup(Distinct(xs))
    ensures forall x :: x in Distinct(xs) <==> x in xs
    ensures forall i, j :: 0 <= i < j < |Distinct(xs)| ==>
      FirstIndex(xs, Distinct(xs)[i]) < FirstIndex(xs, Distinct(xs)[j])
    decreases |xs|
  {
    AddAllSpec([], xs);
    if |xs| > 0 {
      var init, last := xs[..|xs| - 1], xs[|xs| - 1];
      assert xs == init + [last];
      DistinctSpec(init);
      forall y | y in init
        ensures FirstIndex(xs, y) == FirstIndex(init, y)
      {
        var r := FirstIndex(init, y);
        assert xs[..r] == init[..r];
        FirstIndexUnique(xs, y, r);
      }
      if last !in init {
        assert xs[..|xs| - 1] == init;
        FirstIndexUnique(xs, last, |xs| - 1);
      }
    }
  }

  /** A value listed before `Distinct(xs)[j]` already occurs before any occurrence of that value. */
  lemma DistinctEarlier(xs: seq<string>, i: nat, j: nat, m: nat)
    requires i < j < |Distinct(xs)| && m < |xs| && xs[m] == Distinct(xs)[j]
    ensures Distinct(xs)[i] in xs[..m]
  {
    DistinctSpec(xs);
    var ds := Distinct(xs);
    assert ds[i] in ds && ds[j] in ds;
    FirstIndexBefore(xs, ds[j], m);
    var ri := FirstIndex(xs, ds[i]);
    assert xs[..m][ri] == ds[i];
  }

  /** Adding values that are all present changes nothing. */
  lemma {:induction false} AddAllPresent(s: seq<string>, vs: seq<string>)
    requires forall x :: x in vs ==> x in s
    ensures AddAll(s, vs) == s
    decreases |vs|
  {
    if |vs| > 0 {
      AddAllPresent(s, vs[..|vs| - 1]);
      assert vs[|vs| - 1] in vs;
    }
  }

  /** Building a set from a sequence without repetitions keeps the sequence. */
  lemma {:induction false} DistinctOfDistinct(xs: seq<string>)
    requires NoDup(xs)
    ensures Distinct(xs) == xs
    decreases |xs|
  {
    if |xs| > 0 {
      var init := xs[..|xs| - 1];
      assert forall k :: 0 <= k < |init| ==> init[k] == xs[k];
      DistinctOfDistinct(init);
      assert xs[|xs| - 1] !in init;
      assert init + [xs[|xs| - 1]] == xs;
    }
  }

  /** De-duplicating twice is de-duplicating once. */
  lemma DistinctIdempotent(xs: seq<string>)
    ensures Distinct(Distinct(xs)) == Distinct(xs)
  {
    DistinctSpec(xs);
    DistinctOfDistinct(Distinct(xs));
  }

  /** A non-empty sequence holds its first element. */
  lemma HeadIsMember<T>(s: seq<T>)
    ensures |s| > 0 ==> s[0] in s
  {
  }
}
