/** The two Ruby library operations the republisher's decision rule leans on:
    `Array#uniq` (used to detect duplicate documents and to compare titles)
    and `String#gsub` with a literal pattern and an empty replacement (used to
    turn an organisation graph IRI into the organisation's uuid). */
module RubyOps {

  /** No element occurs twice. */
  predicate Distinct<T(==)>(xs: seq<T>) {
    forall i, j :: 0 <= i < j < |xs| ==> xs[i] != xs[j]
  }

  /** `xs.uniq`: the first occurrence of every element, in order of first
      occurrence. Stated here by what it keeps: the same elements, none twice. */
  function Uniq<T(==, !new)>(xs: seq<T>): (r: seq<T>)
    ensures forall x :: x in r <==> x in xs
    ensures Distinct(r)
    ensures |r| <= |xs|
    decreases |xs|
  {
    if xs == [] then []
    else
      var u := Uniq(xs[..|xs| - 1]);
      if xs[|xs| - 1] in u then u else u + [xs[|xs| - 1]]
  }

  /** Appending an element keeps a sequence duplicate-free exactly when the
      element is new. */
  lemma DistinctSnoc<T>(pre: seq<T>, x: T)
    ensures Distinct(pre + [x]) <==> Distinct(pre) && x !in pre
  {
    var xs := pre + [x];
    if Distinct(xs) {
      forall i, j | 0 <= i < j < |pre| ensures pre[i] != pre[j] {
        assert xs[i] == pre[i] && xs[j] == pre[j];
      }
      forall i | 0 <= i < |pre| ensures pre[i] != x {
        assert xs[i] == pre[i] && xs[|pre|] == x;
      }
    }
    if Distinct(pre) && x !in pre {
      forall i, j | 0 <= i < j < |xs| ensures xs[i] != xs[j] {
        assert xs[i] == pre[i];
        if j < |pre| {
          assert xs[j] == pre[j];
        }
      }
    }
  }

  /** `xs.uniq.length == xs.length` holds exactly when no element repeats. */
  lemma {:induction false} UniqKeepsLengthIffDistinct<T(!new)>(xs: seq<T>)
    ensures |Uniq(xs)| == |xs| <==> Distinct(xs)
    decreases |xs|
  {
    if xs != [] {
      var pre, x := xs[..|xs| - 1], xs[|xs| - 1];
      assert xs == pre + [x];
      UniqKeepsLengthIffDistinct(pre);
      DistinctSnoc(pre, x);
      var u := Uniq(pre);
      assert |Uniq(xs)| == |xs| <==> x !in u && |u| == |pre|;
    }
  }

  /** The first two elements of a duplicate-free sequence differ. */
  lemma DistinctHead<T>(u: seq<T>)
    requires Distinct(u)
    ensures |u| >= 2 ==> u[0] != u[1]
  {
  }

  /** `xs.uniq.length == 1` holds exactly when `xs` is non-empty and all its
      elements are equal. */
  lemma UniqSingletonIffAllEqual<T(!new)>(xs: seq<T>)
    ensures |Uniq(xs)| == 1 <==> |xs| > 0 && forall i :: 0 <= i < |xs| ==> xs[i] == xs[0]
  {
    var u := Uniq(xs);
    if |u| == 1 {
      assert u[0] in xs;
      forall i | 0 <= i < |xs| ensures xs[i] == xs[0] {
        assert xs[i] in u;
        assert xs[0] in u;
      }
    }
    if |xs| > 0 && forall i :: 0 <= i < |xs| ==> xs[i] == xs[0] {
      assert xs[0] in u;
      DistinctHead(u);
      forall k | 0 <= k < |u| ensures u[k] == xs[0] {
        assert u[k] in xs;
      }
    }
  }

  /** `p` occurs in `s` starting at position `i`. */
  predicate OccursAt<T(==)>(p: seq<T>, s: seq<T>, i: int) {
    0 <= i <= |s| - |p| && s[i..i + |p|] == p
  }

  /** `p` occurs somewhere in `s`. */
  ghost predicate Occurs<T>(p: seq<T>, s: seq<T>) {
    exists i :: OccursAt(p, s, i)
  }

  /** `s.gsub(p, "")` for a literal, non-empty `p`: scanning left to right,
      every non-overlapping occurrence of `p` is dropped; the rest of `s` is
      kept in order. */
  function RemoveAll<T(==)>(s: seq<T>, p: seq<T>): (r: seq<T>)
    requires |p| > 0
    ensures |r| <= |s|
    ensures |r| == |s| ==> r == s
    decreases |s|
  {
    if |s| < |p| then s
    else if s[..|p|] == p then RemoveAll(s[|p|..], p)
    else [s[0]] + RemoveAll(s[1..], p)
  }

  /** A string in which the pattern never occurs comes back unchanged. */
  lemma {:induction false} RemoveAllAbsent<T>(s: seq<T>, p: seq<T>)
    requires |p| > 0
    requires !Occurs(p, s)
    ensures RemoveAll(s, p) == s
    decreases |s|
  {
    if |s| >= |p| {
      assert !OccursAt(p, s, 0) && s[0..0 + |p|] == s[..|p|];
      forall i ensures !OccursAt(p, s[1..], i) {
        assert !OccursAt(p, s, i + 1);
        if 0 <= i <= |s[1..]| - |p| {
          assert s[1..][i..i + |p|] == s[i + 1..i + 1 + |p|];
        }
      }
      RemoveAllAbsent(s[1..], p);
    }
  }

  /** Removing `p` from `p + u` drops the leading copy and then treats `u`
      on its own. */
  lemma RemoveAllLeading<T>(p: seq<T>, u: seq<T>)
    requires |p| > 0
    ensures RemoveAll(p + u, p) == RemoveAll(u, p)
  {
    assert (p + u)[..|p|] == p;
    assert (p + u)[|p|..] == u;
  }
}
