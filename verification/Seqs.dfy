/** Sequences without repeats, the sets of their elements, and the order of strings. */
module Seqs {

  ghost predicate Distinct<T>(s: seq<T>) {
    forall i, j :: 0 <= i < j < |s| ==> s[i] != s[j]
  }

  function ToSet<T>(s: seq<T>): (r: set<T>) { set x | x in s }

  /** `s` lists the elements of `all`, each once. */
  ghost predicate Enumerates<T>(s: seq<T>, all: set<T>) {
    ToSet(s) == all && Distinct(s)
  }

  lemma ToSetConcat<T>(a: seq<T>, b: seq<T>)
    ensures ToSet(a + b) == ToSet(a) + ToSet(b)
  {
  }

  lemma DistinctConcat<T>(a: seq<T>, b: seq<T>)
    requires Distinct(a) && Distinct(b) && ToSet(a) !! ToSet(b)
    ensures Distinct(a + b)
  {
    forall i, j | 0 <= i < |a| && 0 <= j < |b| ensures a[i] != b[j] {
      assert a[i] in ToSet(a) && b[j] in ToSet(b);
    }
  }

  lemma {:induction false} DistinctCount<T>(s: seq<T>)
    requires Distinct(s)
    ensures |ToSet(s)| == |s|
  {
    if s == [] {
      assert ToSet(s) == {};
    } else {
      var a, x := s[..|s| - 1], s[|s| - 1];
      DistinctCount(a);
      assert s == a + [x];
      assert ToSet(s) == ToSet(a) + {x};
      assert x !in a;
    }
  }

  lemma SubsetSize<T>(a: set<T>, b: set<T>)
    requires a <= b
    ensures |a| <= |b|
    ensures |a| == |b| ==> a == b
  {
    assert b == a + (b - a);
    assert |b| == |a| + |b - a|;
  }

  lemma SomeEnumeration<T>(s: set<T>) returns (ts: seq<T>)
    ensures Enumerates(ts, s)
  {
    ts := [];
    var rest := s;
    while rest != {}
      invariant rest <= s && ToSet(ts) == s - rest
      invariant Distinct(ts)
    {
      var t :| t in rest;
      assert ToSet([t]) == {t};
      ToSetConcat(ts, [t]);
      DistinctConcat(ts, [t]);
      ts, rest := ts + [t], rest - {t};
    }
  }

  lemma Twice<T>(s: seq<T>, i: nat, j: nat)
    requires i < j < |s| && s[i] == s[j]
    ensures multiset(s)[s[i]] >= 2
  {
    assert s == s[..j] + s[j..];
    assert s[..j][i] == s[i] && s[j..][0] == s[i];
    assert s[i] in s[..j] && s[i] in s[j..];
    assert multiset(s) == multiset(s[..j]) + multiset(s[j..]);
    assert multiset(s[..j])[s[i]] >= 1 && multiset(s[j..])[s[i]] >= 1;
  }

  lemma {:induction false} Once<T>(s: seq<T>, x: T)
    requires Distinct(s)
    ensures multiset(s)[x] <= 1
  {
    if s == [] {
    } else {
      var n := |s| - 1;
      Once(s[..n], x);
      assert s == s[..n] + [s[n]];
      if s[n] == x { assert x !in s[..n]; }
    }
  }

  /** A permutation repeats nothing either. */
  lemma PermutedDistinct<T>(a: seq<T>, b: seq<T>)
    requires Distinct(a) && multiset(a) == multiset(b)
    ensures Distinct(b)
  {
    forall i, j | 0 <= i < j < |b| ensures b[i] != b[j] {
      if b[i] == b[j] {
        Twice(b, i, j);
        Once(a, b[i]);
      }
    }
  }

  /** The order of strings by their first difference. */
  predicate LessString(a: string, b: string) {
    b != "" && (a == "" || a[0] < b[0] || (a[0] == b[0] && LessString(a[1..], b[1..])))
  }

  /** Of two strings, one comes first unless they are the same. */
  lemma {:induction false} StringsOrdered(a: string, b: string)
    ensures a == b ==> !LessString(a, b)
    ensures a != b ==> (LessString(a, b) <==> !LessString(b, a))
  {
    if a == "" || b == "" || a[0] != b[0] {
    } else {
      StringsOrdered(a[1..], b[1..]);
      assert a == [a[0]] + a[1..] && b == [b[0]] + b[1..];
    }
  }
}
