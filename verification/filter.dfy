/** The shape shared by both matchers: walk a sequence front to back and push
    every element that passes a test onto the end of the result. */
module Filtering {

  /** The elements of `s` that pass `f`, in their original order. Defined by
      its last step, the way a loop that pushes onto a vector builds it. */
  function Filter<T>(f: T -> bool, s: seq<T>): (r: seq<T>)
    ensures |r| <= |s|
    ensures forall k :: 0 <= k < |r| ==> f(r[k]) && r[k] in s
    ensures forall i :: 0 <= i < |s| && f(s[i]) ==> s[i] in r
    decreases |s|
  {
    if s == [] then []
    else
      var x := s[|s| - 1];
      Filter(f, s[..|s| - 1]) + (if f(x) then [x] else [])
  }

  /** The positions of the elements of `s` that pass `f`, ascending: the
      reference description of which elements a filter keeps. */
  function Positions<T>(f: T -> bool, s: seq<T>): (p: seq<nat>)
    ensures forall k :: 0 <= k < |p| ==> p[k] < |s| && f(s[p[k]])
    ensures forall k, m :: 0 <= k < m < |p| ==> p[k] < p[m]
    ensures forall i :: 0 <= i < |s| && f(s[i]) ==> i in p
    decreases |s|
  {
    if s == [] then []
    else
      var n := |s| - 1;
      Positions(f, s[..n]) + (if f(s[n]) then [n] else [])
  }

  /** `Filter` keeps exactly the elements at `Positions`, one for one and in
      order: nothing is inserted, repeated or reordered. */
  lemma {:induction false} FilterAtPositions<T>(f: T -> bool, s: seq<T>)
    ensures |Filter(f, s)| == |Positions(f, s)|
    ensures forall k :: 0 <= k < |Filter(f, s)| ==> Filter(f, s)[k] == s[Positions(f, s)[k]]
    decreases |s|
  {
    if s != [] {
      var n := |s| - 1;
      FilterAtPositions(f, s[..n]);
    }
  }

  /** `a` is obtained from `b` by deleting elements. */
  predicate IsSubsequence<T(==)>(a: seq<T>, b: seq<T>)
    decreases |b|
  {
    a == []
    || (b != [] && a != []
        && ((a[|a| - 1] == b[|b| - 1] && IsSubsequence(a[..|a| - 1], b[..|b| - 1]))
            || IsSubsequence(a, b[..|b| - 1])))
  }

  lemma SubsequenceExtendBoth<T>(a: seq<T>, b: seq<T>, x: T)
    requires IsSubsequence(a, b)
    ensures IsSubsequence(a + [x], b + [x])
  {
    assert (a + [x])[..|a|] == a;
    assert (b + [x])[..|b|] == b;
  }

  lemma SubsequenceExtendRight<T>(a: seq<T>, b: seq<T>, x: T)
    requires IsSubsequence(a, b)
    ensures IsSubsequence(a, b + [x])
  {
    assert (b + [x])[..|b|] == b;
  }

  /** A filter deletes elements and does nothing else. */
  lemma {:induction false} FilterIsSubsequence<T>(f: T -> bool, s: seq<T>)
    ensures IsSubsequence(Filter(f, s), s)
    decreases |s|
  {
    if s != [] {
      var n := |s| - 1;
      var init := s[..n];
      FilterIsSubsequence(f, init);
      assert init + [s[n]] == s;
      FilterSnoc(f, init, s[n]);
      if f(s[n]) {
        SubsequenceExtendBoth(Filter(f, init), init, s[n]);
      } else {
        assert Filter(f, s) == Filter(f, init);
        SubsequenceExtendRight(Filter(f, init), init, s[n]);
      }
    }
  }

  /** A weaker test keeps at least what a stronger one keeps, in the same
      relative order. */
  lemma {:induction false} FilterMonotone<T>(f: T -> bool, g: T -> bool, s: seq<T>)
    requires forall i :: 0 <= i < |s| && f(s[i]) ==> g(s[i])
    ensures IsSubsequence(Filter(f, s), Filter(g, s))
    decreases |s|
  {
    if s != [] {
      var n := |s| - 1;
      var init := s[..n];
      FilterMonotone(f, g, init);
      assert init + [s[n]] == s;
      FilterSnoc(f, init, s[n]);
      FilterSnoc(g, init, s[n]);
      if f(s[n]) {
        SubsequenceExtendBoth(Filter(f, init), Filter(g, init), s[n]);
      } else {
        assert Filter(f, s) == Filter(f, init);
        if g(s[n]) {
          SubsequenceExtendRight(Filter(f, init), Filter(g, init), s[n]);
        } else {
          assert Filter(g, s) == Filter(g, init);
        }
      }
    }
  }

  /** A test every element passes keeps the whole sequence. */
  lemma {:induction false} FilterAll<T>(f: T -> bool, s: seq<T>)
    requires forall i :: 0 <= i < |s| ==> f(s[i])
    ensures Filter(f, s) == s
    decreases |s|
  {
    if s != [] {
      var n := |s| - 1;
      FilterAll(f, s[..n]);
      assert s[..n] + [s[n]] == s;
    }
  }

  /** Pushing a last element: the step of the loop that builds a filter. */
  lemma FilterSnoc<T>(f: T -> bool, s: seq<T>, x: T)
    ensures Filter(f, s + [x]) == Filter(f, s) + (if f(x) then [x] else [])
  {
    assert (s + [x])[..|s|] == s;
  }

  /** One more element of a prefix through a filter. */
  lemma FilterPrefixStep<T>(f: T -> bool, s: seq<T>, k: nat)
    requires k < |s|
    ensures Filter(f, s[..k + 1]) == Filter(f, s[..k]) + (if f(s[k]) then [s[k]] else [])
  {
    assert s[..k + 1] == s[..k] + [s[k]];
    FilterSnoc(f, s[..k], s[k]);
  }
}
