/**
 * Order-preserving selection from a sequence: the model of JavaScript's
 * `Array.prototype.filter` and of `String.prototype.replace` with a global
 * character-class pattern and an empty replacement.
 */
module Seqs {

  /** `idx` lists positions of `s`, strictly increasing, and `r` is what `s` holds there. */
  ghost predicate Picks<T>(r: seq<T>, s: seq<T>, idx: seq<int>) {
    && |idx| == |r|
    && (forall k :: 0 <= k < |idx| ==> 0 <= idx[k] < |s| && r[k] == s[idx[k]])
    && (forall j, k :: 0 <= j < k < |idx| ==> idx[j] < idx[k])
  }

  /**
   * `r` is the subsequence of `s` made of exactly the positions whose element
   * satisfies `p`, in their original order and with their multiplicity.
   */
  ghost predicate IsFilterOf<T>(r: seq<T>, s: seq<T>, p: T -> bool) {
    exists idx: seq<int> {:trigger Picks(r, s, idx)} ::
      && Picks(r, s, idx)
      && (forall i :: 0 <= i < |s| ==> (i in idx <==> p(s[i])))
  }

  /** The elements of `s` that satisfy `p`, in order. */
  function Filter<T>(s: seq<T>, p: T -> bool): (r: seq<T>)
    ensures |r| <= |s|
    ensures forall k :: 0 <= k < |r| ==> p(r[k])
  {
    if s == [] then []
    else
      var init := Filter(s[..|s| - 1], p);
      if p(s[|s| - 1]) then init + [s[|s| - 1]] else init
  }

  /** The positions of `s` whose element satisfies `p`, in increasing order. */
  function KeptIndices<T>(s: seq<T>, p: T -> bool): (idx: seq<int>)
    ensures forall k :: 0 <= k < |idx| ==> 0 <= idx[k] < |s| && p(s[idx[k]])
    ensures forall j, k :: 0 <= j < k < |idx| ==> idx[j] < idx[k]
    ensures forall i :: 0 <= i < |s| && p(s[i]) ==> i in idx
  {
    if s == [] then []
    else
      var init := KeptIndices(s[..|s| - 1], p);
      if p(s[|s| - 1]) then init + [|s| - 1] else init
  }

  /** Filter keeps the element of `s` at each kept index, and nothing else. */
  lemma {:induction false} FilterPicksKeptIndices<T>(s: seq<T>, p: T -> bool)
    ensures Picks(Filter(s, p), s, KeptIndices(s, p))
  {
    if s != [] {
      FilterPicksKeptIndices(s[..|s| - 1], p);
    }
  }

  /** A filtered sequence holds exactly the elements of `s` that satisfy `p`. */
  lemma IsFilterOfMembers<T>(r: seq<T>, s: seq<T>, p: T -> bool)
    requires IsFilterOf(r, s, p)
    ensures forall x :: x in r <==> x in s && p(x)
  {
    var idx :| Picks(r, s, idx) && (forall i :: 0 <= i < |s| ==> (i in idx <==> p(s[i])));
    forall x | x in r ensures x in s && p(x) {
      var k :| 0 <= k < |r| && r[k] == x;
      assert idx[k] in idx;
    }
    forall x | x in s && p(x) ensures x in r {
      var i :| 0 <= i < |s| && s[i] == x;
      assert i in idx;
      var k :| 0 <= k < |idx| && idx[k] == i;
      assert r[k] == x;
    }
  }

  /** Filter selects exactly the positions that satisfy `p`, keeping their order. */
  lemma FilterIsFilterOf<T>(s: seq<T>, p: T -> bool)
    ensures IsFilterOf(Filter(s, p), s, p)
  {
    var idx := KeptIndices(s, p);
    FilterPicksKeptIndices(s, p);
    forall i | 0 <= i < |s|
      ensures i in idx <==> p(s[i])
    {
      if i in idx {
        var k :| 0 <= k < |idx| && idx[k] == i;
      }
    }
  }

  /** When every element satisfies `p`, Filter returns its input unchanged. */
  lemma {:induction false} FilterKeepsAll<T>(s: seq<T>, p: T -> bool)
    requires forall i :: 0 <= i < |s| ==> p(s[i])
    ensures Filter(s, p) == s
  {
    if s != [] {
      FilterKeepsAll(s[..|s| - 1], p);
      assert s == s[..|s| - 1] + [s[|s| - 1]];
    }
  }

  /** Filtering twice with the same predicate is the same as filtering once. */
  lemma FilterIdempotent<T>(s: seq<T>, p: T -> bool)
    ensures Filter(Filter(s, p), p) == Filter(s, p)
  {
    FilterKeepsAll(Filter(s, p), p);
  }

  /**
   * Filtering by a stricter test after a looser one is filtering by the
   * stricter test alone: narrowing a search can start from the last result.
   */
  lemma {:induction false} FilterNarrows<T>(s: seq<T>, p: T -> bool, q: T -> bool)
    requires forall x :: q(x) ==> p(x)
    ensures Filter(Filter(s, p), q) == Filter(s, q)
  {
    if s != [] {
      var init, x := s[..|s| - 1], s[|s| - 1];
      FilterNarrows(init, p, q);
      if p(x) {
        FilterConcat(Filter(init, p), [x], q);
        FilterSingleton(x, q);
      }
    }
  }

  /** A one-element sequence keeps its element exactly when it passes. */
  lemma FilterSingleton<T>(x: T, p: T -> bool)
    ensures Filter([x], p) == if p(x) then [x] else []
  {
    assert [x][..0] == [];
  }

  /** Filtering a concatenation filters each part: the filter decides element by element. */
  lemma {:induction false} FilterConcat<T>(a: seq<T>, b: seq<T>, p: T -> bool)
    ensures Filter(a + b, p) == Filter(a, p) + Filter(b, p)
    decreases |b|
  {
    if b == [] {
      assert a + b == a;
    } else {
      var init, x := b[..|b| - 1], b[|b| - 1];
      var tail := if p(x) then [x] else [];
      var ab := a + b;
      assert ab[..|ab| - 1] == a + init && ab[|ab| - 1] == x;
      assert Filter(ab, p) == Filter(a + init, p) + tail;
      FilterConcat(a, init, p);
      assert Filter(b, p) == Filter(init, p) + tail;
    }
  }

}
