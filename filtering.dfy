/**
 An order-preserving filter-map over sequences: the shape shared by every
 "walk a list, append what passes a test" loop of the keyword pipeline.
 */
module Filtering {

  /** The identity, for a filter that keeps elements unchanged. */
  function Id<T>(x: T): T { x }

  /** The images under `f` of the elements of `s` that satisfy `keep`, in the order of `s`. */
  function FilterMap<T, U>(s: seq<T>, keep: T -> bool, f: T -> U): (r: seq<U>)
    ensures |r| <= |s|
  {
    if s == [] then []
    else FilterMap(s[..|s| - 1], keep, f) + (if keep(s[|s| - 1]) then [f(s[|s| - 1])] else [])
  }

  /** The positions of `s` whose element satisfies `keep`, in increasing order. */
  function KeptIndices<T>(s: seq<T>, keep: T -> bool): (idx: seq<nat>)
    ensures forall j :: 0 <= j < |idx| ==> idx[j] < |s| && keep(s[idx[j]])
    ensures forall j, k :: 0 <= j < k < |idx| ==> idx[j] < idx[k]
    ensures forall i :: 0 <= i < |s| && keep(s[i]) ==> i in idx
  {
    if s == [] then []
    else KeptIndices(s[..|s| - 1], keep) + (if keep(s[|s| - 1]) then [|s| - 1] else [])
  }

  /** The j-th output is the image of the element at the j-th kept position. */
  lemma {:induction false} FilterMapAt<T, U>(s: seq<T>, keep: T -> bool, f: T -> U)
    ensures |FilterMap(s, keep, f)| == |KeptIndices(s, keep)|
    ensures forall j :: 0 <= j < |KeptIndices(s, keep)| ==>
              FilterMap(s, keep, f)[j] == f(s[KeptIndices(s, keep)[j]])
  {
    if s != [] {
      var init := s[..|s| - 1];
      FilterMapAt(init, keep, f);
      var idx := KeptIndices(init, keep);
      forall j | 0 <= j < |idx|
        ensures s[idx[j]] == init[idx[j]]
      {
      }
    }
  }

  /** Filtering distributes over concatenation: the order of the input is kept. */
  lemma {:induction false} FilterMapAppend<T, U>(a: seq<T>, b: seq<T>, keep: T -> bool, f: T -> U)
    ensures FilterMap(a + b, keep, f) == FilterMap(a, keep, f) + FilterMap(b, keep, f)
    decreases |b|
  {
    if b == [] {
      assert a + b == a;
    } else {
      var b' := b[..|b| - 1];
      assert (a + b)[..|a + b| - 1] == a + b';
      assert (a + b)[|a + b| - 1] == b[|b| - 1];
      FilterMapAppend(a, b', keep, f);
    }
  }

  /** A plain filter holds exactly the elements of `s` that satisfy `keep`. */
  lemma SelectMembers<T>(s: seq<T>, keep: T -> bool, x: T)
    ensures x in FilterMap(s, keep, Id) <==> x in s && keep(x)
  {
    FilterMapAt(s, keep, Id);
    var r, idx := FilterMap(s, keep, Id), KeptIndices(s, keep);
    if x in r {
      var j :| 0 <= j < |r| && r[j] == x;
      assert s[idx[j]] == x;
    }
    if x in s && keep(x) {
      var i :| 0 <= i < |s| && s[i] == x;
      var j :| 0 <= j < |idx| && idx[j] == i;
      assert r[j] == x;
    }
  }
}
