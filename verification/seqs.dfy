/**
 * Order-preserving filtering and integer sums over sequences: the
 * `Array.prototype.filter` and `reduce` calls the admin panel is built on.
 */
module Seqs {

  /** The elements of `s` that satisfy `p`, in their original order (JavaScript's `filter`). */
  function Filter<T>(s: seq<T>, p: T -> bool): (r: seq<T>)
    ensures |r| <= |s|
    ensures forall i :: 0 <= i < |r| ==> r[i] in s && p(r[i])
    ensures forall i :: 0 <= i < |s| && p(s[i]) ==> s[i] in r
    decreases |s|
  {
    if s == [] then []
    else Filter(s[..|s| - 1], p) + (if p(s[|s| - 1]) then [s[|s| - 1]] else [])
  }

  /** The positions of `s` whose element satisfies `p`, ascending. */
  function KeptIndices<T>(s: seq<T>, p: T -> bool): (idx: seq<nat>)
    decreases |s|
  {
    if s == [] then []
    else KeptIndices(s[..|s| - 1], p) + (if p(s[|s| - 1]) then [|s| - 1] else [])
  }

  /** `r` is the subsequence of `s` taken at the strictly increasing positions `idx`. */
  ghost predicate Embeds<T>(idx: seq<nat>, r: seq<T>, s: seq<T>) {
    && |idx| == |r|
    && (forall k :: 0 <= k < |idx| ==> idx[k] < |s| && r[k] == s[idx[k]])
    && (forall k, l :: 0 <= k < l < |idx| ==> idx[k] < idx[l])
  }

  /** `r` is a subsequence of `s`: it keeps some of its elements, in order. */
  ghost predicate IsSubsequence<T>(r: seq<T>, s: seq<T>) {
    exists idx: seq<nat> :: Embeds(idx, r, s)
  }

  /**
   * `r` is the subsequence of `s` at positions `idx`, and those positions are
   * exactly the ones whose element satisfies `p`.
   */
  ghost predicate Selects<T>(idx: seq<nat>, r: seq<T>, s: seq<T>, p: T -> bool) {
    && Embeds(idx, r, s)
    && (forall i :: 0 <= i < |s| ==> (p(s[i]) <==> i in idx))
  }

  /** `Filter` keeps exactly the satisfying positions, in their original order. */
  lemma {:induction false} FilterSelects<T>(s: seq<T>, p: T -> bool)
    ensures Selects(KeptIndices(s, p), Filter(s, p), s, p)
    decreases |s|
  {
    if s != [] {
      var n := |s| - 1;
      var init := s[..n];
      FilterSelects(init, p);
      var idx0, r0 := KeptIndices(init, p), Filter(init, p);
      var tail: seq<nat> := if p(s[n]) then [n] else [];
      var idx, r := KeptIndices(s, p), Filter(s, p);
      assert idx == idx0 + tail;
      assert r == r0 + (if p(s[n]) then [s[n]] else []);
      assert forall k :: 0 <= k < |idx0| ==> idx0[k] < n;
      forall k | 0 <= k < |idx|
        ensures idx[k] < |s| && r[k] == s[idx[k]]
      {
        if k < |idx0| {
          assert idx[k] == idx0[k] && r[k] == r0[k] == init[idx0[k]];
        }
      }
      forall i | 0 <= i < |s|
        ensures p(s[i]) <==> i in idx
      {
        if i < n {
          assert s[i] == init[i];
          assert i in idx <==> i in idx0;
        }
      }
      assert Embeds(idx, r, s);
    }
  }

  /** Hence every filter result is a subsequence of its input. */
  lemma FilterIsSubsequence<T>(s: seq<T>, p: T -> bool)
    ensures IsSubsequence(Filter(s, p), s)
  {
    FilterSelects(s, p);
  }

  /** A predicate every element satisfies keeps the whole sequence. */
  lemma {:induction false} FilterAll<T>(s: seq<T>, p: T -> bool)
    requires forall i :: 0 <= i < |s| ==> p(s[i])
    ensures Filter(s, p) == s
    decreases |s|
  {
    if s != [] {
      FilterAll(s[..|s| - 1], p);
      assert s[..|s| - 1] + [s[|s| - 1]] == s;
    }
  }

  /**
   * The total of the weights `w` over `s`, accumulated left to right from 0,
   * as a JavaScript `reduce` with an initial value does. Together with
   * `SumAppend` the two ensures determine it on every sequence.
   */
  function Sum<T>(s: seq<T>, w: T -> int): (r: int)
    ensures |s| == 0 ==> r == 0
    ensures |s| == 1 ==> r == w(s[0])
    decreases |s|
  {
    if s == [] then 0 else Sum(s[..|s| - 1], w) + w(s[|s| - 1])
  }

  lemma {:induction false} SumAppend<T>(a: seq<T>, b: seq<T>, w: T -> int)
    ensures Sum(a + b, w) == Sum(a, w) + Sum(b, w)
    decreases |b|
  {
    if b == [] {
      assert a + b == a;
    } else {
      var n := |b| - 1;
      assert (a + b)[..|a + b| - 1] == a + b[..n];
      SumAppend(a, b[..n], w);
    }
  }

  /** A sum of non-negative weights is non-negative. */
  lemma {:induction false} SumNonNegative<T>(s: seq<T>, w: T -> int)
    requires forall i :: 0 <= i < |s| ==> w(s[i]) >= 0
    ensures Sum(s, w) >= 0
    decreases |s|
  {
    if s != [] {
      SumNonNegative(s[..|s| - 1], w);
    }
  }

  /** Sums agree on sequences whose elements carry the same weights pointwise. */
  lemma {:induction false} SumPointwise<T>(s: seq<T>, t: seq<T>, w: T -> int)
    requires |s| == |t|
    requires forall i :: 0 <= i < |s| ==> w(s[i]) == w(t[i])
    ensures Sum(s, w) == Sum(t, w)
    decreases |s|
  {
    if s != [] {
      SumPointwise(s[..|s| - 1], t[..|t| - 1], w);
    }
  }

  /** Splitting a sequence by a predicate splits its sum. */
  lemma {:induction false} SumSplit<T>(s: seq<T>, p: T -> bool, q: T -> bool, w: T -> int)
    requires forall x :: q(x) == !p(x)
    ensures Sum(s, w) == Sum(Filter(s, p), w) + Sum(Filter(s, q), w)
    decreases |s|
  {
    if s != [] {
      var n := |s| - 1;
      var last := s[n];
      SumSplit(s[..n], p, q, w);
      SumAppend(Filter(s[..n], p), if p(last) then [last] else [], w);
      SumAppend(Filter(s[..n], q), if q(last) then [last] else [], w);
      assert Sum([last], w) == w(last) by {
        assert [last][..0] == [];
      }
    }
  }

  /** Splitting a sequence by a predicate splits its length. */
  lemma {:induction false} FilterSplitLength<T>(s: seq<T>, p: T -> bool, q: T -> bool)
    requires forall x :: q(x) == !p(x)
    ensures |s| == |Filter(s, p)| + |Filter(s, q)|
    decreases |s|
  {
    if s != [] {
      FilterSplitLength(s[..|s| - 1], p, q);
    }
  }

  /** The positions of `s` whose element satisfies `p`. */
  ghost function Positions<T>(s: seq<T>, p: T -> bool): set<int> {
    set i | 0 <= i < |s| && p(s[i])
  }

  /** Removing the last element removes at most its own position. */
  lemma PositionsOfInit<T>(s: seq<T>, p: T -> bool)
    requires s != []
    ensures var n := |s| - 1;
      Positions(s, p) == Positions(s[..n], p) + (if p(s[n]) then {n} else {})
  {
    var n := |s| - 1;
    forall i | 0 <= i < n
      ensures s[..n][i] == s[i]
    {
    }
  }

  /** The filter's length is the number of satisfying positions. */
  lemma {:induction false} FilterCountsPositions<T>(s: seq<T>, p: T -> bool)
    ensures |Filter(s, p)| == |Positions(s, p)|
    decreases |s|
  {
    if s == [] {
      assert Positions(s, p) == {};
    } else {
      var n := |s| - 1;
      FilterCountsPositions(s[..n], p);
      PositionsOfInit(s, p);
      assert n !in Positions(s[..n], p);
    }
  }
}
