/** Rolling windows over a list of timestamps. */
module RollingWindow {

  predicate Sorted(s: seq<int>) {
    forall i, j :: 0 <= i <= j < |s| ==> s[i] <= s[j]
  }

  /** How many timestamps lie in the interval (lo, hi]. */
  function CountIn(s: seq<int>, lo: int, hi: int): nat {
    if s == [] then 0
    else
      var last := s[|s| - 1];
      CountIn(s[..|s| - 1], lo, hi) + if lo < last <= hi then 1 else 0
  }

  /** How many lie in the window of length `w` that ends at `t`. */
  function InWindow(s: seq<int>, w: int, t: int): nat { CountIn(s, t - w, t) }

  /** Any n + 1 consecutive timestamps span at least `w`. */
  ghost predicate Spaced(s: seq<int>, n: nat, w: int) {
    forall i, k :: 0 <= i <= k < |s| && k == i + n ==> s[k] - s[i] >= w
  }

  function CountUpTo(s: seq<int>, v: int): nat {
    if s == [] then 0
    else if s[|s| - 1] <= v then |s|
    else CountUpTo(s[..|s| - 1], v)
  }

  lemma {:induction false} CountUpToSplits(s: seq<int>, v: int)
    requires Sorted(s)
    ensures CountUpTo(s, v) <= |s|
    ensures forall i :: 0 <= i < |s| ==> (s[i] <= v <==> i < CountUpTo(s, v))
  {
    if s != [] && s[|s| - 1] > v {
      CountUpToSplits(s[..|s| - 1], v);
    }
  }

  lemma {:induction false} CountInIsDifference(s: seq<int>, lo: int, hi: int)
    requires Sorted(s) && lo <= hi
    ensures CountIn(s, lo, hi) == CountUpTo(s, hi) - CountUpTo(s, lo)
  {
    if s != [] {
      var front := s[..|s| - 1];
      CountInIsDifference(front, lo, hi);
      CountUpToSplits(front, lo);
      CountUpToSplits(front, hi);
      CountUpToSplits(s, lo);
      CountUpToSplits(s, hi);
      if front != [] { assert front[|front| - 1] == s[|front| - 1]; }
    }
  }

  lemma {:induction false} EmptyInterval(s: seq<int>, lo: int, hi: int)
    requires hi <= lo
    ensures CountIn(s, lo, hi) == 0
  {
    if s != [] { EmptyInterval(s[..|s| - 1], lo, hi); }
  }

  /** What a window holds is what is left of a sorted list once its older part is gone. */
  lemma RestIsInWindow(s: seq<int>, gone: nat, w: int, t: int)
    requires Sorted(s) && gone <= |s| && (forall i :: 0 <= i < |s| ==> s[i] <= t)
    requires forall i :: 0 <= i < |s| ==> (s[i] > t - w <==> i >= gone)
    ensures InWindow(s, w, t) == |s| - gone
  {
    assert gone < |s| ==> t - w < s[gone] <= t;
    if w <= 0 {
      EmptyInterval(s, t - w, t);
    } else {
      CountInIsDifference(s, t - w, t);
      CountUpToSplits(s, t - w);
      CountUpToSplits(s, t);
      assert gone > 0 ==> s[gone - 1] <= t - w;
      assert s != [] ==> s[|s| - 1] <= t;
    }
  }

  /** The spacing is exactly what bounds every window of length `w`, wherever it ends. */
  lemma SpacedIffWindowsBounded(s: seq<int>, n: nat, w: int)
    requires Sorted(s)
    ensures Spaced(s, n, w) <==> forall t :: InWindow(s, w, t) <= n
  {
    if Spaced(s, n, w) {
      forall t ensures InWindow(s, w, t) <= n { SpacedBoundsWindow(s, n, w, t); }
    } else {
      var i, k :| 0 <= i <= k < |s| && k == i + n && s[k] - s[i] < w;
      var t := s[k];
      CountInIsDifference(s, t - w, t);
      CountUpToSplits(s, t);
      CountUpToSplits(s, t - w);
      assert InWindow(s, w, t) > n;
    }
  }

  lemma SpacedBoundsWindow(s: seq<int>, n: nat, w: int, t: int)
    requires Sorted(s) && Spaced(s, n, w)
    ensures InWindow(s, w, t) <= n
  {
    if w <= 0 {
      EmptyInterval(s, t - w, t);
    } else {
      CountInIsDifference(s, t - w, t);
      CountUpToSplits(s, t);
      CountUpToSplits(s, t - w);
      var i, j := CountUpTo(s, t - w), CountUpTo(s, t);
      var k := i + n;
      assert k < |s| ==> s[k] - s[i] >= w;
    }
  }

  /** Appending a time far enough from the element n places back keeps the spacing. */
  lemma SpacedAppend(s: seq<int>, n: nat, w: int, t: int)
    requires Spaced(s, n, w) && n > 0
    requires |s| >= n ==> s[|s| - n] + w <= t
    ensures Spaced(s + [t], n, w)
  {
  }
}
