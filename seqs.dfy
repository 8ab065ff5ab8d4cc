/**
 * `Array.prototype.filter` on immutable sequences, with the facts the join
 * relies on: which elements are kept and that their relative order is kept.
 */
module Seqs {

  /** `s.filter(p)`: the elements of `s` that satisfy `p`. */
  function Filter<T>(s: seq<T>, p: T -> bool): (r: seq<T>)
    ensures |r| <= |s|
  {
    if s == [] then []
    else Filter(s[..|s| - 1], p) + (if p(s[|s| - 1]) then [s[|s| - 1]] else [])
  }

  /** `Filter` keeps exactly the elements that satisfy `p`. */
  lemma {:induction false} FilterMembership<T>(s: seq<T>, p: T -> bool, x: T)
    ensures x in Filter(s, p) <==> x in s && p(x)
  {
    if s != [] {
      var init := s[..|s| - 1];
      assert s == init + [s[|s| - 1]];
      FilterMembership(init, p, x);
    }
  }

  /**
   * `idx` lists, in increasing order, positions of `s` whose elements satisfy
   * `p`, and lists every such position.
   */
  ghost predicate IndexesKept<T>(s: seq<T>, p: T -> bool, idx: seq<nat>) {
    && (forall k :: 0 <= k < |idx| ==> idx[k] < |s| && p(s[idx[k]]))
    && (forall k, l :: 0 <= k < l < |idx| ==> idx[k] < idx[l])
    && (forall i :: 0 <= i < |s| && p(s[i]) ==> i in idx)
  }

  /** The positions in `s` of the elements that `p` keeps, in increasing order. */
  function KeptIndices<T>(s: seq<T>, p: T -> bool): (idx: seq<nat>)
    ensures IndexesKept(s, p, idx)
  {
    if s == [] then []
    else
      var rest := KeptIndices(s[..|s| - 1], p);
      KeptIndicesSnoc(s, p, rest);
      rest + (if p(s[|s| - 1]) then [|s| - 1] else [])
  }

  /** Extending `s` by one element extends its kept positions by that element's position, if kept. */
  lemma KeptIndicesSnoc<T>(s: seq<T>, p: T -> bool, rest: seq<nat>)
    requires s != [] && IndexesKept(s[..|s| - 1], p, rest)
    ensures IndexesKept(s, p, rest + (if p(s[|s| - 1]) then [|s| - 1] else []))
  {
    var init := s[..|s| - 1];
    var idx := rest + (if p(s[|s| - 1]) then [|s| - 1] else []);
    forall k | 0 <= k < |idx|
      ensures idx[k] < |s| && p(s[idx[k]])
    {
      if k < |rest| {
        assert s[rest[k]] == init[rest[k]];
      }
    }
    forall i | 0 <= i < |s| && p(s[i])
      ensures i in idx
    {
      if i < |init| {
        assert init[i] == s[i];
        assert i in rest;
      } else {
        assert idx[|idx| - 1] == i;
      }
    }
  }

  /**
   * The k-th kept element is the element of `s` at the k-th kept position:
   * `Filter` keeps exactly the elements satisfying `p`, in their original order.
   */
  lemma {:induction false} FilterKeepsOrder<T>(s: seq<T>, p: T -> bool)
    ensures |Filter(s, p)| == |KeptIndices(s, p)|
    ensures forall k :: 0 <= k < |Filter(s, p)| ==> Filter(s, p)[k] == s[KeptIndices(s, p)[k]]
  {
    if s != [] {
      var init, last := s[..|s| - 1], s[|s| - 1];
      assert s == init + [last];
      FilterKeepsOrder(init, p);
      var kept, idx := Filter(init, p), KeptIndices(init, p);
      var tail := if p(last) then [last] else [];
      var tailIdx := if p(last) then [|s| - 1] else [];
      assert Filter(s, p) == kept + tail;
      assert KeptIndices(s, p) == idx + tailIdx;
      forall k | 0 <= k < |Filter(s, p)|
        ensures Filter(s, p)[k] == s[KeptIndices(s, p)[k]]
      {
        if k < |kept| {
          assert Filter(s, p)[k] == kept[k] == init[idx[k]];
          assert s[idx[k]] == init[idx[k]];
        }
      }
    }
  }

  /** `f(s[0]) + f(s[1]) + ...`: the results of `f` on each element, concatenated in order. */
  function FlatMap<T, U>(s: seq<T>, f: T -> seq<U>): seq<U> {
    if s == [] then []
    else FlatMap(s[..|s| - 1], f) + f(s[|s| - 1])
  }

  /** Appending an element appends its image. */
  lemma FlatMapSnoc<T, U>(s: seq<T>, x: T, f: T -> seq<U>)
    ensures FlatMap(s + [x], f) == FlatMap(s, f) + f(x)
  {
    assert (s + [x])[..|s|] == s;
  }

  /** Extending a prefix by one element extends its image by that element's image. */
  lemma FlatMapPrefixSnoc<T, U>(s: seq<T>, i: nat, f: T -> seq<U>)
    requires i < |s|
    ensures FlatMap(s[..i + 1], f) == FlatMap(s[..i], f) + f(s[i])
  {
    assert s[..i + 1][..i] == s[..i];
  }

  /** The images of the elements of `a` come before those of the elements of `b`. */
  lemma {:induction false} FlatMapAppend<T, U>(a: seq<T>, b: seq<T>, f: T -> seq<U>)
    ensures FlatMap(a + b, f) == FlatMap(a, f) + FlatMap(b, f)
  {
    if b == [] {
      assert a + b == a;
    } else {
      var init, last := b[..|b| - 1], b[|b| - 1];
      assert b == init + [last];
      assert a + b == (a + init) + [last];
      FlatMapAppend(a, init, f);
      FlatMapSnoc(a + init, last, f);
      FlatMapSnoc(init, last, f);
    }
  }
}
