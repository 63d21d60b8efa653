/** Sequence helpers shared by the cheat index and the text functions. */
module Seqs {

  /** The elements of `s` that satisfy `p`, in their original order. */
  function Filter<T(!new)>(s: seq<T>, p: T -> bool): (r: seq<T>)
    ensures |r| <= |s|
    ensures forall x :: x in r <==> x in s && p(x)
  {
    if s == [] then []
    else
      assert s == s[..|s| - 1] + [s[|s| - 1]];
      Filter(s[..|s| - 1], p) + (if p(s[|s| - 1]) then [s[|s| - 1]] else [])
  }

  /**
   * The positions in `s` that `Filter(s, p)` keeps: strictly increasing, one
   * per kept element, and every position whose element satisfies `p`.
   */
  function KeptIndices<T(!new)>(s: seq<T>, p: T -> bool): (idx: seq<nat>)
    ensures |idx| == |Filter(s, p)|
    ensures forall i :: 0 <= i < |idx| ==> idx[i] < |s| && s[idx[i]] == Filter(s, p)[i]
    ensures forall i, j :: 0 <= i < j < |idx| ==> idx[i] < idx[j]
    ensures forall k :: 0 <= k < |s| && p(s[k]) ==> k in idx
  {
    if s == [] then []
    else
      var n := |s| - 1;
      var prev := KeptIndices(s[..n], p);
      assert Filter(s, p) == Filter(s[..n], p) + (if p(s[n]) then [s[n]] else []);
      prev + (if p(s[n]) then [n] else [])
  }

  /** Filtering one more element of `s` appends it exactly when it passes. */
  lemma FilterStep<T(!new)>(s: seq<T>, i: nat, p: T -> bool)
    requires i < |s|
    ensures Filter(s[..i + 1], p) == Filter(s[..i], p) + if p(s[i]) then [s[i]] else []
  {
    assert s[..i + 1][..i] == s[..i];
  }

  /** Filtering commutes with concatenation, so it never reorders what it keeps. */
  lemma {:induction false} FilterAppend<T(!new)>(a: seq<T>, b: seq<T>, p: T -> bool)
    ensures Filter(a + b, p) == Filter(a, p) + Filter(b, p)
    decreases |b|
  {
    if b == [] {
      assert a + b == a;
    } else {
      var b' := b[..|b| - 1];
      assert (a + b)[..|a + b| - 1] == a + b';
      FilterAppend(a, b', p);
    }
  }

  /** A filter whose predicate holds of every element keeps the whole sequence. */
  lemma {:induction false} FilterKeepsAll<T(!new)>(s: seq<T>, p: T -> bool)
    requires forall x :: x in s ==> p(x)
    ensures Filter(s, p) == s
    decreases |s|
  {
    if s != [] {
      assert s == s[..|s| - 1] + [s[|s| - 1]];
      FilterKeepsAll(s[..|s| - 1], p);
    }
  }

  /** A filter whose predicate fails on every element keeps nothing. */
  lemma {:induction false} FilterDropsAll<T(!new)>(s: seq<T>, p: T -> bool)
    requires forall x :: x in s ==> !p(x)
    ensures Filter(s, p) == []
    decreases |s|
  {
    if s != [] {
      assert s == s[..|s| - 1] + [s[|s| - 1]];
      FilterDropsAll(s[..|s| - 1], p);
    }
  }

  /** The distinct elements of `s`, each at the place of its first occurrence. */
  function FirstOccurrences<T(==,!new)>(s: seq<T>): (r: seq<T>)
    ensures forall x :: x in r <==> x in s
    ensures forall i, j :: 0 <= i < j < |r| ==> r[i] != r[j]
  {
    if s == [] then []
    else
      assert s == s[..|s| - 1] + [s[|s| - 1]];
      var r' := FirstOccurrences(s[..|s| - 1]);
      if s[|s| - 1] in r' then r' else r' + [s[|s| - 1]]
  }

  /** The index of the first occurrence of `x` in `s`. */
  function IndexOf<T(==)>(s: seq<T>, x: T): (k: nat)
    requires x in s
    ensures k < |s| && s[k] == x
    ensures forall i :: 0 <= i < k ==> s[i] != x
  {
    if s[0] == x then 0 else 1 + IndexOf(s[1..], x)
  }

  /** Extending a sequence does not move the first occurrence of an element already present. */
  lemma IndexOfPrefix<T>(s: seq<T>, n: nat, x: T)
    requires n <= |s| && x in s[..n]
    ensures IndexOf(s, x) == IndexOf(s[..n], x)
  {
    var p := s[..n];
    var k, m := IndexOf(p, x), IndexOf(s, x);
    assert p[k] == s[k];
    assert m <= k;
    assert p[m] == s[m];
  }

  /**
   * `FirstOccurrences` lists the elements in the order of their first
   * occurrence in `s`.
   */
  lemma {:induction false} FirstOccurrencesOrder<T(!new)>(s: seq<T>)
    ensures forall i, j :: 0 <= i < j < |FirstOccurrences(s)| ==>
      IndexOf(s, FirstOccurrences(s)[i]) < IndexOf(s, FirstOccurrences(s)[j])
    decreases |s|
  {
    if s != [] {
      var n := |s| - 1;
      var p := s[..n];
      var r' := FirstOccurrences(p);
      var r := FirstOccurrences(s);
      FirstOccurrencesOrder(p);
      assert r == if s[n] in r' then r' else r' + [s[n]];
      forall y | y in r'
        ensures IndexOf(s, y) == IndexOf(p, y) < n
      {
        IndexOfPrefix(s, n, y);
      }
      forall i, j | 0 <= i < j < |r|
        ensures IndexOf(s, r[i]) < IndexOf(s, r[j])
      {
        assert r[i] == r'[i] && r'[i] in r';
        assert IndexOf(s, r'[i]) == IndexOf(p, r'[i]) < n;
        if j < |r'| {
          assert r[j] == r'[j] && r'[j] in r';
          assert IndexOf(s, r'[j]) == IndexOf(p, r'[j]);
          assert IndexOf(p, r'[i]) < IndexOf(p, r'[j]);
        } else {
          assert r[j] == s[n] && s[n] !in p;
          assert IndexOf(s, s[n]) == n;
        }
      }
    }
  }
}
