/**
 Stable sorting by an integer key, as Python's `list.sort(key=...)` does it, together with the
 facts about it that the trace tools rely on: the result is ordered, it is a permutation, equal
 keys keep their arrival order, selecting before or after sorting is the same, and the place of
 each element can be counted.
 */
module Sorting {

  ghost predicate Sorted<T>(key: T -> int, s: seq<T>) {
    forall i, j :: 0 <= i < j < |s| ==> key(s[i]) <= key(s[j])
  }

  /** Puts `x` behind every element whose key is not greater. */
  function Insert<T>(key: T -> int, x: T, s: seq<T>): (r: seq<T>)
  {
    if s == [] || key(s[|s| - 1]) <= key(x) then s + [x]
    else Insert(key, x, s[..|s| - 1]) + [s[|s| - 1]]
  }

  function StableSort<T>(key: T -> int, s: seq<T>): (r: seq<T>)
  {
    if s == [] then [] else Insert(key, s[|s| - 1], StableSort(key, s[..|s| - 1]))
  }

  /** The elements that satisfy `p`, in order. */
  function Select<T>(p: T -> bool, s: seq<T>): (r: seq<T>)
  {
    if s == [] then []
    else Select(p, s[..|s| - 1]) + (if p(s[|s| - 1]) then [s[|s| - 1]] else [])
  }

  /** How many elements have a key above `v`. */
  function CountGt<T>(key: T -> int, s: seq<T>, v: int): (n: nat)
    ensures n <= |s|
  {
    if s == [] then 0
    else CountGt(key, s[..|s| - 1], v) + (if key(s[|s| - 1]) > v then 1 else 0)
  }

  /* ---- the result is an ordered permutation ---- */

  lemma {:induction false} InsertMultiset<T>(key: T -> int, x: T, s: seq<T>)
    ensures multiset(Insert(key, x, s)) == multiset(s) + multiset{x}
    ensures |Insert(key, x, s)| == |s| + 1
  {
    if s == [] || key(s[|s| - 1]) <= key(x) {
    } else {
      InsertMultiset(key, x, s[..|s| - 1]);
      assert multiset(s) == multiset(s[..|s| - 1]) + multiset{s[|s| - 1]} by {
        assert s == s[..|s| - 1] + [s[|s| - 1]];
      }
    }
  }

  lemma {:induction false} InsertBound<T>(key: T -> int, x: T, s: seq<T>, v: int)
    requires key(x) <= v && forall i :: 0 <= i < |s| ==> key(s[i]) <= v
    ensures forall i :: 0 <= i < |Insert(key, x, s)| ==> key(Insert(key, x, s)[i]) <= v
  {
    if s == [] || key(s[|s| - 1]) <= key(x) {
    } else {
      InsertBound(key, x, s[..|s| - 1], v);
    }
  }

  lemma {:induction false} InsertSorted<T>(key: T -> int, x: T, s: seq<T>)
    requires Sorted(key, s)
    ensures Sorted(key, Insert(key, x, s))
  {
    if s == [] || key(s[|s| - 1]) <= key(x) {
    } else {
      InsertSorted(key, x, s[..|s| - 1]);
      InsertBound(key, x, s[..|s| - 1], key(s[|s| - 1]));
    }
  }

  /** Sorting orders the elements and neither loses nor duplicates any. */
  lemma {:induction false} SortFacts<T>(key: T -> int, s: seq<T>)
    ensures Sorted(key, StableSort(key, s))
    ensures multiset(StableSort(key, s)) == multiset(s)
    ensures |StableSort(key, s)| == |s|
  {
    if s == [] {
    } else {
      var a, b := s[..|s| - 1], s[|s| - 1];
      SortFacts(key, a);
      assert s == a + [b];
      InsertSorted(key, b, StableSort(key, a));
      InsertMultiset(key, b, StableSort(key, a));
    }
  }

  lemma {:induction false} SortOfSorted<T>(key: T -> int, s: seq<T>)
    requires Sorted(key, s)
    ensures StableSort(key, s) == s
  {
    if s == [] {
    } else {
      SortedFront(key, s);
      SortOfSorted(key, s[..|s| - 1]);
      InsertLast(key, s[|s| - 1], s[..|s| - 1]);
      FrontAndLast(s);
    }
  }

  lemma {:induction false} SortedFront<T>(key: T -> int, s: seq<T>)
    requires s != [] && Sorted(key, s)
    ensures var a, z := s[..|s| - 1], s[|s| - 1];
            Sorted(key, a) && forall i :: 0 <= i < |a| ==> key(a[i]) <= key(z)
  {
    var a, z := s[..|s| - 1], s[|s| - 1];
    forall i | 0 <= i < |a| ensures key(a[i]) <= key(z) {
      assert a[i] == s[i];
    }
  }

  lemma FrontAndLast<T>(s: seq<T>)
    requires s != []
    ensures s[..|s| - 1] + [s[|s| - 1]] == s
  {
  }

  /** A prefix that belongs in front of `x` is left alone. */
  lemma {:induction false} InsertBehind<T>(key: T -> int, x: T, a: seq<T>, b: seq<T>)
    requires forall i :: 0 <= i < |a| ==> key(a[i]) <= key(x)
    ensures Insert(key, x, a + b) == a + Insert(key, x, b)
  {
    if b == [] {
      assert a + b == a;
    } else {
      assert (a + b)[..|a + b| - 1] == a + b[..|b| - 1];
      InsertBehind(key, x, a, b[..|b| - 1]);
      if key(b[|b| - 1]) <= key(x) {
        assert a + b + [x] == a + (b + [x]);
      } else {
        var i := Insert(key, x, b[..|b| - 1]);
        assert a + i + [b[|b| - 1]] == a + (i + [b[|b| - 1]]);
      }
    }
  }

  /* ---- selecting ---- */

  lemma {:induction false} SelectConcat<T>(p: T -> bool, a: seq<T>, b: seq<T>)
    ensures Select(p, a + b) == Select(p, a) + Select(p, b)
  {
    if b == [] {
      assert a + b == a;
    } else {
      assert (a + b)[..|a + b| - 1] == a + b[..|b| - 1];
      SelectConcat(p, a, b[..|b| - 1]);
    }
  }

  lemma {:induction false} SelectNone<T>(p: T -> bool, s: seq<T>)
    requires forall i :: 0 <= i < |s| ==> !p(s[i])
    ensures Select(p, s) == []
  {
    if s == [] {
    } else {
      SelectNone(p, s[..|s| - 1]);
    }
  }

  lemma {:induction false} SelectParts<T>(p: T -> bool, a: seq<T>, b: seq<T>, c: seq<T>)
    requires Select(p, a) == []
    ensures Select(p, a + b + c) == Select(p, b) + Select(p, c)
  {
    SelectConcat(p, a + b, c);
    SelectConcat(p, a, b);
    assert [] + Select(p, b) == Select(p, b);
  }

  lemma SliceParts<T>(s: seq<T>, k: nat, m: nat)
    requires k <= m <= |s|
    ensures s == s[..k] + s[k..m] + s[m..]
  {
  }

  lemma {:induction false} SelectStretch<T>(p: T -> bool, s: seq<T>, k: nat, m: nat)
    requires k <= m <= |s|
    requires forall i :: 0 <= i < k ==> !p(s[i])
    ensures Select(p, s) == Select(p, s[k..m]) + Select(p, s[m..])
  {
    SelectNone(p, s[..k]);
    SelectParts(p, s[..k], s[k..m], s[m..]);
    SliceParts(s, k, m);
  }

  lemma {:induction false} SelectEmpty<T>(p: T -> bool, s: seq<T>)
    ensures Select(p, s) == [] <==> forall i :: 0 <= i < |s| ==> !p(s[i])
  {
    if s == [] {
    } else {
      SelectEmpty(p, s[..|s| - 1]);
      assert forall i :: 0 <= i < |s| - 1 ==> s[i] == s[..|s| - 1][i];
    }
  }

  /** Dropping the elements from `m` on changes nothing exactly when none of them satisfies `p`. */
  lemma {:induction false} SelectStretchIff<T>(p: T -> bool, s: seq<T>, k: nat, m: nat)
    requires k <= m <= |s|
    requires forall i :: 0 <= i < k ==> !p(s[i])
    ensures (forall j :: m <= j < |s| ==> !p(s[j])) ==> Select(p, s[k..m]) == Select(p, s)
    ensures (exists j :: m <= j < |s| && p(s[j])) ==> |Select(p, s[k..m])| < |Select(p, s)|
  {
    SelectStretch(p, s, k, m);
    SelectEmpty(p, s[m..]);
    if j :| m <= j < |s| && p(s[j]) {
      assert s[m..][j - m] == s[j];
    }
  }

  lemma SortLength<T>(key: T -> int, s: seq<T>)
    ensures |StableSort(key, s)| == |s|
  {
    SortFacts(key, s);
    assert |multiset(s)| == |s| && |multiset(StableSort(key, s))| == |StableSort(key, s)|;
  }

  /** Moving the front of one sequence to the end of another selects the same. */
  lemma {:induction false} SelectMoved<T>(p: T -> bool, a: seq<T>, s: seq<T>, k: nat)
    requires k <= |s|
    ensures Select(p, a + s[..k]) + Select(p, s[k..]) == Select(p, a) + Select(p, s)
  {
    assert s == s[..k] + s[k..];
    SelectConcat(p, s[..k], s[k..]);
    SelectConcat(p, a, s[..k]);
  }

  lemma SelectSnoc<T>(p: T -> bool, a: seq<T>, b: T)
    ensures Select(p, a + [b]) == Select(p, a) + (if p(b) then [b] else [])
  {
    assert (a + [b])[..|a|] == a;
  }

  lemma {:induction false} SelectBag<T>(p: T -> bool, a: seq<T>, b: T)
    ensures multiset(Select(p, a + [b])) == multiset(Select(p, a)) + (if p(b) then multiset{b} else multiset{})
  {
    SelectSnoc(p, a, b);
  }

  lemma SortSnoc<T>(key: T -> int, a: seq<T>, b: T)
    ensures StableSort(key, a + [b]) == Insert(key, b, StableSort(key, a))
  {
    assert (a + [b])[..|a|] == a;
  }

  lemma {:induction false} SelectMember<T>(p: T -> bool, s: seq<T>, i: nat)
    requires i < |Select(p, s)|
    ensures Select(p, s)[i] in s && p(Select(p, s)[i])
  {
    var a := Select(p, s[..|s| - 1]);
    if i == |a| {
    } else {
      SelectMember(p, s[..|s| - 1], i);
    }
  }

  /** What satisfies `p` before place `j` is selected before what does from there on. */
  lemma {:induction false} SelectAround<T>(p: T -> bool, s: seq<T>, i: nat, j: nat)
    requires i < j < |s|
    ensures Select(p, s) == Select(p, s[..j]) + Select(p, s[j..])
    ensures p(s[i]) ==> s[i] in Select(p, s[..j])
    ensures p(s[j]) ==> s[j] in Select(p, s[j..])
  {
    assert s == s[..j] + s[j..] && s[..j][i] in s[..j] && s[j..][0] in s[j..];
    SelectConcat(p, s[..j], s[j..]);
    SelectHas(p, s[..j], s[i]);
    SelectHas(p, s[j..], s[j]);
  }

  lemma {:induction false} SelectHas<T>(p: T -> bool, s: seq<T>, x: T)
    ensures x in Select(p, s) <==> x in s && p(x)
  {
    if s == [] {
    } else {
      SelectHas(p, s[..|s| - 1], x);
      assert s == s[..|s| - 1] + [s[|s| - 1]];
    }
  }

  lemma InsertLast<T>(key: T -> int, x: T, s: seq<T>)
    requires forall i :: 0 <= i < |s| ==> key(s[i]) <= key(x)
    ensures Insert(key, x, s) == s + [x]
  {
  }

  lemma InsertBefore<T>(key: T -> int, x: T, s: seq<T>, b: T)
    requires key(x) < key(b)
    ensures Insert(key, x, s + [b]) == Insert(key, x, s) + [b]
  {
    assert (s + [b])[..|s|] == s;
  }

  lemma {:induction false} SelectInsert<T>(p: T -> bool, key: T -> int, x: T, s: seq<T>)
    requires Sorted(key, s)
    ensures Select(p, Insert(key, x, s)) ==
            if p(x) then Insert(key, x, Select(p, s)) else Select(p, s)
  {
    if s == [] || key(s[|s| - 1]) <= key(x) {
      SelectSnoc(p, s, x);
      var t := Select(p, s);
      forall i | 0 <= i < |t| ensures key(t[i]) <= key(x) {
        SelectMember(p, s, i);
      }
      InsertLast(key, x, t);
    } else {
      var a, b := s[..|s| - 1], s[|s| - 1];
      SelectInsert(p, key, x, a);
      SelectSnoc(p, Insert(key, x, a), b);
      assert Select(p, s) == if p(b) then Select(p, a) + [b] else Select(p, a);
      if p(b) {
        InsertBefore(key, x, Select(p, a), b);
      }
    }
  }

  /** Selecting commutes with stable sorting. */
  lemma {:induction false} SelectSort<T>(p: T -> bool, key: T -> int, s: seq<T>)
    ensures Select(p, StableSort(key, s)) == StableSort(key, Select(p, s))
  {
    if s == [] {
    } else {
      var a, b := s[..|s| - 1], s[|s| - 1];
      SelectSort(p, key, a);
      SortFacts(key, a);
      SelectInsert(p, key, b, StableSort(key, a));
      if p(b) {
        SortSnoc(key, Select(p, a), b);
      } else {
        assert Select(p, s) == Select(p, a);
      }
    }
  }

  /** Elements with equal keys keep their order of arrival. */
  lemma {:induction false} SortIsStable<T>(p: T -> bool, key: T -> int, s: seq<T>, v: int)
    requires forall i :: 0 <= i < |s| ==> (p(s[i]) <==> key(s[i]) == v)
    ensures Select(p, StableSort(key, s)) == Select(p, s)
  {
    SelectSort(p, key, s);
    var t := Select(p, s);
    forall i | 0 <= i < |t| ensures key(t[i]) == v {
      SelectMember(p, s, i);
    }
    SortOfSorted(key, t);
  }

  /* ---- counting ---- */

  lemma {:induction false} CountConcat<T>(key: T -> int, a: seq<T>, b: seq<T>, v: int)
    ensures CountGt(key, a + b, v) == CountGt(key, a, v) + CountGt(key, b, v)
  {
    if b == [] {
      assert a + b == a;
    } else {
      assert (a + b)[..|a + b| - 1] == a + b[..|b| - 1];
      CountConcat(key, a, b[..|b| - 1], v);
    }
  }

  lemma {:induction false} CountMonotone<T>(key: T -> int, s: seq<T>, v: int, w: int)
    requires v <= w
    ensures CountGt(key, s, w) <= CountGt(key, s, v)
  {
    if s == [] {
    } else {
      CountMonotone(key, s[..|s| - 1], v, w);
    }
  }

  lemma {:induction false} CountAll<T>(key: T -> int, s: seq<T>, v: int)
    requires forall i :: 0 <= i < |s| ==> key(s[i]) > v
    ensures CountGt(key, s, v) == |s|
  {
    if s == [] {
    } else {
      CountAll(key, s[..|s| - 1], v);
    }
  }

  lemma {:induction false} CountNone<T>(key: T -> int, s: seq<T>, v: int)
    requires forall i :: 0 <= i < |s| ==> key(s[i]) <= v
    ensures CountGt(key, s, v) == 0
  {
    if s == [] {
    } else {
      CountNone(key, s[..|s| - 1], v);
    }
  }

  /** In an ordered sequence the elements above `v` are exactly the last `CountGt` ones. */
  lemma {:induction false} CountInSorted<T>(key: T -> int, s: seq<T>, v: int, i: nat)
    requires Sorted(key, s) && i < |s|
    ensures key(s[i]) > v <==> i >= |s| - CountGt(key, s, v)
  {
    if key(s[|s| - 1]) <= v {
      CountNone(key, s, v);
    } else if i < |s| - 1 {
      CountInSorted(key, s[..|s| - 1], v, i);
    }
  }

  lemma {:induction false} CountInsert<T>(key: T -> int, x: T, s: seq<T>, v: int)
    ensures CountGt(key, Insert(key, x, s), v) == CountGt(key, s + [x], v)
  {
    assert (s + [x])[..|s|] == s;
    if s == [] || key(s[|s| - 1]) <= key(x) {
    } else {
      var a, b := s[..|s| - 1], s[|s| - 1];
      CountInsert(key, x, a, v);
      var i := Insert(key, x, a);
      assert (i + [b])[..|i|] == i;
      assert (a + [x])[..|a|] == a;
    }
  }

  lemma {:induction false} CountSort<T>(key: T -> int, s: seq<T>, v: int)
    ensures CountGt(key, StableSort(key, s), v) == CountGt(key, s, v)
  {
    if s == [] {
    } else {
      var a, b := s[..|s| - 1], s[|s| - 1];
      CountSort(key, a, v);
      var t := StableSort(key, a);
      CountInsert(key, b, t, v);
      assert (t + [b])[..|t|] == t;
    }
  }

  lemma {:induction false} InsertFront<T>(key: T -> int, x: T, s: seq<T>)
    requires forall i :: 0 <= i < |s| ==> key(s[i]) > key(x)
    ensures Insert(key, x, s) == [x] + s
  {
    if s == [] {
    } else {
      var a := s[..|s| - 1];
      InsertFront(key, x, a);
      assert s == a + [s[|s| - 1]];
    }
  }

  /** An element is put behind those that are not above it. */
  lemma {:induction false} InsertPlace<T>(key: T -> int, x: T, s: seq<T>, k: nat)
    requires k <= |s|
    requires forall i :: 0 <= i < k ==> key(s[i]) <= key(x)
    requires forall i :: k <= i < |s| ==> key(s[i]) > key(x)
    ensures Insert(key, x, s) == s[..k] + ([x] + s[k..])
  {
    assert s == s[..k] + s[k..];
    InsertFront(key, x, s[k..]);
    InsertBehind(key, x, s[..k], s[k..]);
  }
}
