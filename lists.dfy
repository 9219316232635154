/**
 * The two list combinators the reducers and services are built from:
 * JavaScript's `Array.prototype.map` / Java's `stream().map`, and
 * `Array.prototype.filter` / `stream().filter`, with the laws that pin them down.
 */
module Lists {

  /** `s.map(f)`: one result per element, in the same order. */
  function Map<T, U>(s: seq<T>, f: T -> U): (r: seq<U>)
    ensures |r| == |s|
    ensures forall i :: 0 <= i < |s| ==> r[i] == f(s[i])
  {
    seq(|s|, i requires 0 <= i < |s| => f(s[i]))
  }

  /** `s.filter(keep)`: the elements that `keep` accepts, in their original order. */
  function Filter<T>(s: seq<T>, keep: T -> bool): (r: seq<T>)
    ensures |r| <= |s|
    decreases |s|
  {
    if s == [] then []
    else Filter(s[..|s| - 1], keep) + (if keep(s[|s| - 1]) then [s[|s| - 1]] else [])
  }

  /** The positions of `s` whose element `keep` accepts, in increasing order. */
  function KeptIndices<T>(s: seq<T>, keep: T -> bool): seq<nat>
    decreases |s|
  {
    if s == [] then []
    else KeptIndices(s[..|s| - 1], keep) + (if keep(s[|s| - 1]) then [|s| - 1] else [])
  }

  predicate StrictlyIncreasing(xs: seq<nat>) {
    forall i, j :: 0 <= i < j < |xs| ==> xs[i] < xs[j]
  }

  /** Every position is kept exactly when every element is accepted. */
  lemma {:induction false} KeptIndicesFull<T>(s: seq<T>, keep: T -> bool)
    ensures |KeptIndices(s, keep)| <= |s|
    ensures |KeptIndices(s, keep)| == |s| <==> forall i :: 0 <= i < |s| ==> keep(s[i])
    decreases |s|
  {
    if s != [] {
      var init := s[..|s| - 1];
      KeptIndicesFull(init, keep);
      assert forall i :: 0 <= i < |init| ==> init[i] == s[i];
    }
  }

  lemma {:induction false} KeptIndicesBounded<T>(s: seq<T>, keep: T -> bool)
    ensures var ks := KeptIndices(s, keep);
      StrictlyIncreasing(ks) && forall j :: 0 <= j < |ks| ==> ks[j] < |s|
    decreases |s|
  {
    if s != [] {
      KeptIndicesBounded(s[..|s| - 1], keep);
    }
  }

  lemma {:induction false} KeptIndicesMembers<T>(s: seq<T>, keep: T -> bool, i: nat)
    requires i < |s|
    ensures i in KeptIndices(s, keep) <==> keep(s[i])
    decreases |s|
  {
    var p := s[..|s| - 1];
    KeptIndicesBounded(p, keep);
    if i < |p| {
      KeptIndicesMembers(p, keep, i);
      assert p[i] == s[i];
    }
  }

  lemma {:induction false} FilterAt<T>(s: seq<T>, keep: T -> bool)
    ensures var r, ks := Filter(s, keep), KeptIndices(s, keep);
      |r| == |ks| && forall j :: 0 <= j < |ks| ==> ks[j] < |s| && r[j] == s[ks[j]]
    decreases |s|
  {
    KeptIndicesBounded(s, keep);
    if s != [] {
      var p := s[..|s| - 1];
      FilterAt(p, keep);
      KeptIndicesBounded(p, keep);
      var ks, kp := KeptIndices(s, keep), KeptIndices(p, keep);
      var r, rp := Filter(s, keep), Filter(p, keep);
      forall j | 0 <= j < |kp| ensures r[j] == s[ks[j]] {
        assert r[j] == rp[j] && ks[j] == kp[j];
        assert p[kp[j]] == s[kp[j]];
      }
    }
  }

  /**
   * The full description of a filter: its result is the original sequence read
   * at a strictly increasing list of positions, and a position is on that list
   * exactly when `keep` accepts its element.
   */
  lemma FilterByIndices<T>(s: seq<T>, keep: T -> bool)
    ensures var r, ks := Filter(s, keep), KeptIndices(s, keep);
      && |r| == |ks|
      && StrictlyIncreasing(ks)
      && (forall j :: 0 <= j < |ks| ==> ks[j] < |s| && r[j] == s[ks[j]])
      && (forall i :: 0 <= i < |s| ==> (i in ks <==> keep(s[i])))
  {
    KeptIndicesBounded(s, keep);
    FilterAt(s, keep);
    forall i | 0 <= i < |s| ensures i in KeptIndices(s, keep) <==> keep(s[i]) {
      KeptIndicesMembers(s, keep, i);
    }
  }

  /** An element survives the filter exactly when it occurs in the input and is accepted. */
  lemma {:induction false} FilterMembers<T>(s: seq<T>, keep: T -> bool, x: T)
    ensures x in Filter(s, keep) <==> x in s && keep(x)
    decreases |s|
  {
    if s != [] {
      var p := s[..|s| - 1];
      FilterMembers(p, keep, x);
      assert s == p + [s[|s| - 1]];
    }
  }

  /** A filter that accepts every element returns the input unchanged. */
  lemma {:induction false} FilterKeepsAll<T>(s: seq<T>, keep: T -> bool)
    requires forall i :: 0 <= i < |s| ==> keep(s[i])
    ensures Filter(s, keep) == s
    decreases |s|
  {
    if s != [] {
      FilterKeepsAll(s[..|s| - 1], keep);
    }
  }

  /** Filtering is idempotent. */
  lemma {:induction false} FilterIdempotent<T>(s: seq<T>, keep: T -> bool)
    ensures Filter(Filter(s, keep), keep) == Filter(s, keep)
  {
    var r := Filter(s, keep);
    forall i | 0 <= i < |r| ensures keep(r[i]) {
      FilterMembers(s, keep, r[i]);
    }
    FilterKeepsAll(r, keep);
  }
}
