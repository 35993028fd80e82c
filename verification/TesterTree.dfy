/**
 The tree of caches and testers of the memory test: the closed-form number of testers, and the
 recursive construction that creates and numbers the subsystems.
 */
module TesterTree {
  import opened Text

  const BLOCK_SIZE: nat := 64

  /* ---- the number of testers ---- */

  function Product(cs: seq<nat>): (r: nat)
  {
    if cs == [] then 1 else Product(cs[..|cs| - 1]) * cs[|cs| - 1]
  }

  /** The first `n` tester counts, each times the number of subsystems on its level. */
  function WeightedSum(cs: seq<nat>, ts: seq<nat>, n: nat): (r: nat)
    requires n <= |ts| <= |cs| + 1
  {
    if n == 0 then 0 else WeightedSum(cs, ts, n - 1) + ts[n - 1] * Product(cs[..n - 1])
  }

  /** The testers of a subtree: those of its root and those below each of its caches. */
  function Testers(cs: seq<nat>, ts: seq<nat>): (r: nat)
    requires |ts| == |cs| + 1
  {
    if cs == [] then ts[0] else ts[0] + cs[0] * Testers(cs[1..], ts[1..])
  }

  lemma {:induction false} ProductFront(c: nat, cs: seq<nat>)
    ensures Product([c] + cs) == c * Product(cs)
  {
    var all := [c] + cs;
    if cs == [] {
      assert all[..0] == [] && Product([]) == 1;
      assert Product(all) == Product(all[..0]) * c;
    } else {
      var n := |cs| - 1;
      assert all[..|all| - 1] == [c] + cs[..n];
      ProductFront(c, cs[..n]);
      assert c * Product(cs[..n]) * cs[n] == c * (Product(cs[..n]) * cs[n]);
    }
  }

  lemma {:induction false} WeightedSumFront(cs: seq<nat>, ts: seq<nat>, n: nat)
    requires 1 <= n <= |ts| == |cs| + 1 && cs != []
    ensures WeightedSum(cs, ts, n) == ts[0] + cs[0] * WeightedSum(cs[1..], ts[1..], n - 1)
  {
    if n == 1 {
      assert cs[..0] == [];
      assert WeightedSum(cs, ts, 1) == WeightedSum(cs, ts, 0) + ts[0] * Product(cs[..0]);
    } else {
      WeightedSumFront(cs, ts, n - 1);
      var c, rest := cs[0], cs[1..];
      assert cs[..n - 1] == [c] + rest[..n - 2];
      ProductFront(c, rest[..n - 2]);
      var s, t, p := WeightedSum(rest, ts[1..], n - 2), ts[n - 1], Product(rest[..n - 2]);
      Distribute(c, s, t, p);
    }
  }

  lemma Distribute(c: nat, s: nat, t: nat, p: nat)
    ensures c * (s + t * p) == c * s + t * (c * p)
  {
    assert t * (c * p) == c * (t * p);
  }

  /** The closed form counts the testers of the tree. */
  lemma {:induction false} ClosedFormIsTree(cs: seq<nat>, ts: seq<nat>)
    requires |ts| == |cs| + 1
    ensures WeightedSum(cs, ts, |ts|) == Testers(cs, ts)
  {
    if cs == [] {
      assert cs[..0] == [];
      assert WeightedSum(cs, ts, 1) == WeightedSum(cs, ts, 0) + ts[0] * Product(cs[..0]);
    } else {
      WeightedSumFront(cs, ts, |ts|);
      ClosedFormIsTree(cs[1..], ts[1..]);
    }
  }

  method NumTesters(cs: seq<nat>, ts: seq<nat>) returns (total: nat)
    requires |ts| == |cs| + 1
    ensures total == Testers(cs, ts)
  {
    var multiplier: seq<nat> := [1];
    for i := 0 to |cs|
      invariant |multiplier| == i + 1
      invariant forall k :: 0 <= k <= i ==> multiplier[k] == Product(cs[..k])
    {
      assert cs[..i + 1][..i] == cs[..i];
      multiplier := multiplier + [multiplier[i] * cs[i]];
    }
    total := 0;
    for k := 0 to |ts|
      invariant total == WeightedSum(cs, ts, k)
    {
      total := total + ts[k] * multiplier[k];
    }
    ClosedFormIsTree(cs, ts);
  }

  /* ---- the tree ---- */

  /** A subsystem is named after its level and its index on the level. */
  datatype Subsystem = Subsystem(level: nat, index: nat)

  function NameOf(s: Subsystem): (r: string)
  {
    "l" + Digits(s.level) + "subsys" + Digits(s.index)
  }

  /** Different subsystems have different names. */
  lemma NamesDiffer(a: Subsystem, b: Subsystem)
    requires NameOf(a) == NameOf(b)
    ensures a == b
  {
    var p, q := "l" + Digits(a.level), "l" + Digits(b.level);
    var r, t := "ubsys" + Digits(a.index), "ubsys" + Digits(b.index);
    DigitsFree(a.level, 's');
    DigitsFree(b.level, 's');
    assert NameOf(a) == p + "s" + r && NameOf(b) == q + "s" + t;
    SplitFirst(p, 's', r);
    SplitFirst(q, 's', t);
    assert Split(NameOf(a), 's')[0] == p && Split(NameOf(b), 's')[0] == q;
    assert r == NameOf(a)[|p| + 1..] && t == NameOf(b)[|q| + 1..];
    assert Digits(a.level) == p[1..] && Digits(b.level) == q[1..];
    assert Digits(a.index) == r[5..] && Digits(b.index) == t[5..];
    DigitsInjective(a.level, b.level);
    DigitsInjective(a.index, b.index);
  }

  /** A cache as its prototype describes it; sizes are in KiB. */
  datatype Prototype = Prototype(size: nat, latency: nat, assoc: nat, mshrs: nat, inclusive: bool)

  function Scaled(p: Prototype, scale: nat): (r: Prototype)
  {
    Prototype(p.size * scale, p.latency * 10, p.assoc * scale, p.mshrs * scale, !p.inclusive)
  }

  /** The prototype `k` levels from the testers, given the one next to them. */
  function PrototypeAt(l1: Prototype, cs: seq<nat>, k: nat): (r: Prototype)
    requires k <= |cs|
  {
    if k == 0 then l1 else Scaled(PrototypeAt(l1, cs, k - 1), cs[k - 1])
  }

  lemma {:induction false} PrototypeScale(l1: Prototype, cs: seq<nat>, k: nat)
    requires k <= |cs|
    ensures var p, c := PrototypeAt(l1, cs, k), Product(cs[..k]);
            && p.size == l1.size * c && p.assoc == l1.assoc * c && p.mshrs == l1.mshrs * c
            && p.latency == l1.latency * Pow10(k)
            && p.inclusive == (l1.inclusive == (k % 2 == 0))
  {
    if k == 0 {
      assert Product(cs[..0]) == 1;
    } else {
      PrototypeScale(l1, cs, k - 1);
      assert cs[..k][..k - 1] == cs[..k - 1];
      var c, x := Product(cs[..k - 1]), cs[k - 1];
      ScaleProduct(l1.size, c, x);
      ScaleProduct(l1.assoc, c, x);
      ScaleProduct(l1.mshrs, c, x);
      ScaleProduct(l1.latency, Pow10(k - 1), 10);
    }
  }

  lemma ScaleProduct(a: nat, c: nat, x: nat)
    ensures a * c * x == a * (c * x)
  {
  }

  /** One prototype for each level of caches, the one next to the memory first. */
  method MakePrototypes(l1: Prototype, cs: seq<nat>) returns (protos: seq<Prototype>)
    requires cs != []
    ensures |protos| == |cs|
    ensures forall j :: 0 <= j < |cs| ==> protos[j] == PrototypeAt(l1, cs, |cs| - 1 - j)
  {
    protos := [l1];
    for i := 0 to |cs| - 1
      invariant |protos| == i + 1
      invariant forall j :: 0 <= j <= i ==> protos[j] == PrototypeAt(l1, cs, i - j)
    {
      protos := [Scaled(protos[0], cs[i])] + protos;
    }
  }

  datatype Cache = Cache(level: nat, proto: Prototype)

  /** The caches from the first `n` on are made after the prototypes of their levels. */
  ghost predicate Fitted(caches: seq<Cache>, n: nat, protos: seq<Prototype>) {
    forall i :: n <= i < |caches| ==>
      1 <= caches[i].level <= |protos| && caches[i].proto == protos[|protos| - caches[i].level]
  }

  lemma FittedUp(caches: seq<Cache>, n: nat, m: nat, protos: seq<Prototype>)
    requires protos != [] && n <= m <= |caches|
    requires forall i :: n <= i < m ==> caches[i] == Cache(|protos|, protos[0])
    requires Fitted(caches, m, protos[1..])
    ensures Fitted(caches, n, protos)
  {
  }

  /** How many caches fan out below a subsystem. */
  function Caches(cs: seq<nat>): (n: nat)
  {
    if cs == [] then 0 else cs[0] * (1 + Caches(cs[1..]))
  }

  /** Every subsystem but the one at the memory is below a cache of its own: with the subsystems of
      each level counted as the caches multiply, there is one cache fewer. */
  lemma {:induction false} CachesAreLinks(cs: seq<nat>)
    ensures 1 + Caches(cs) == WeightedSum(cs, seq(|cs| + 1, _ => 1), |cs| + 1)
  {
    CachesAreTesters(cs, seq(|cs| + 1, _ => 1));
    ClosedFormIsTree(cs, seq(|cs| + 1, _ => 1));
  }

  lemma {:induction false} CachesAreTesters(cs: seq<nat>, ones: seq<nat>)
    requires |ones| == |cs| + 1 && forall i :: 0 <= i < |ones| ==> ones[i] == 1
    ensures 1 + Caches(cs) == Testers(cs, ones)
  {
    if cs == [] {
    } else {
      CachesAreTesters(cs[1..], ones[1..]);
    }
  }

  class Builder {
    const cachespec: seq<nat>
    const testerspec: seq<nat>
    var nextIndex: seq<nat>
    var subsystems: seq<Subsystem>
    var testers: nat
    var caches: seq<Cache>

    constructor (cs: seq<nat>, ts: seq<nat>)
      requires |ts| == |cs| + 1
      ensures cachespec == cs && testerspec == ts && Valid()
      ensures testers == 0 && caches == [] && forall l :: 0 <= l <= |cs| ==> nextIndex[l] == 0
    {
      cachespec, testerspec := cs, ts;
      nextIndex, subsystems, testers, caches := seq(|cs| + 1, _ => 0), [], 0, [];
    }

    /** Each subsystem exists once, and on each level they are numbered up to the next index. */
    ghost predicate Valid()
      reads this
    {
      && |testerspec| == |cachespec| + 1 && |nextIndex| == |cachespec| + 1
      && (forall i, j :: 0 <= i < j < |subsystems| ==> subsystems[i] != subsystems[j])
      && (forall s :: s in subsystems <==> s.level < |nextIndex| && s.index < nextIndex[s.level])
    }

    /** `level` is how many levels of caches are above the subsystem that is made. */
    method AddSubsystem(level: nat)
      requires Valid() && level <= |cachespec|
      modifies this`nextIndex, this`subsystems
      ensures Valid()
      ensures nextIndex == old(nextIndex)[level := old(nextIndex)[level] + 1]
    {
      var s := Subsystem(level, nextIndex[level]);
      nextIndex := nextIndex[level := nextIndex[level] + 1];
      subsystems := subsystems + [s];
    }

    /** `ncaches` are the cache counts of the uppermost levels. */
    ghost predicate Uppermost(ncaches: seq<nat>) {
      |ncaches| <= |cachespec| && ncaches == cachespec[|cachespec| - |ncaches|..]
    }

    /** Makes a subtree whose caches are given by `ncaches`. It adds as many subsystems to each
        level as the caches below it multiply to, and the testers of the subtree. */
    method MakeCacheLevel(ncaches: seq<nat>, protos: seq<Prototype>, hasNextCache: bool) returns (ok: bool)
      requires Valid() && Uppermost(ncaches) && |protos| == |ncaches|
      requires forall i :: 0 <= i < |cachespec| ==> cachespec[i] >= 1
      modifies this
      ensures Valid()
      ensures ok <==> (ncaches == [] ==> hasNextCache) && testerspec[|cachespec|] >= 1
      ensures ok ==> testers == old(testers) + Testers(ncaches, testerspec[|cachespec| - |ncaches|..])
      ensures old(caches) <= caches && Fitted(caches, |old(caches)|, protos)
      ensures ok ==> |caches| == |old(caches)| + Caches(ncaches)
      ensures ok ==> Advanced(old(nextIndex), nextIndex, ncaches, 1)
      decreases |ncaches|, 0
    {
      var level := |ncaches|;
      AddSubsystem(level);
      ghost var start := nextIndex;
      var ntesters := testerspec[|cachespec| - level];
      testers := testers + ntesters;
      if level != 0 {
        ghost var rest := testerspec[|cachespec| - level..];
        assert rest[1..] == testerspec[|cachespec| - |ncaches[1..]|..];
        assert ncaches[0] == cachespec[|cachespec| - level];
        caches := caches + seq(ncaches[0], _ => Cache(level, protos[0]));
        ghost var made := caches;
        ok := MakeTreeCaches(ncaches[1..], protos[1..], ncaches[0]);
        FittedUp(caches, |old(caches)|, |made|, protos);
        assert ncaches[0] * (1 + Caches(ncaches[1..])) == ncaches[0] + ncaches[0] * Caches(ncaches[1..]);
        if ok { AdvancedUp(old(nextIndex), start, nextIndex, ncaches); }
      } else {
        if !hasNextCache { return false; }
        ok := ntesters >= 1;
        AdvancedLeaf(old(nextIndex), nextIndex);
      }
    }

    /** Makes a subtree on each of `count` caches. */
    method MakeTreeCaches(ncaches: seq<nat>, protos: seq<Prototype>, count: nat) returns (ok: bool)
      requires Valid() && Uppermost(ncaches) && |protos| == |ncaches| && count >= 1
      requires forall i :: 0 <= i < |cachespec| ==> cachespec[i] >= 1
      modifies this
      ensures Valid()
      ensures ok <==> testerspec[|cachespec|] >= 1
      ensures ok ==> testers == old(testers) + count * Testers(ncaches, testerspec[|cachespec| - |ncaches|..])
      ensures old(caches) <= caches && Fitted(caches, |old(caches)|, protos)
      ensures ok ==> |caches| == |old(caches)| + count * Caches(ncaches)
      ensures ok ==> Advanced(old(nextIndex), nextIndex, ncaches, count)
      decreases |ncaches|, 1
    {
      ghost var start, base, each := nextIndex, testers, Testers(ncaches, testerspec[|cachespec| - |ncaches|..]);
      ghost var made, below := |caches|, Caches(ncaches);
      for k := 0 to count
        invariant Valid()
        invariant k > 0 ==> testerspec[|cachespec|] >= 1
        invariant testers == base + k * each
        invariant |caches| == made + k * below
        invariant old(caches) <= caches && Fitted(caches, made, protos)
        invariant Advanced(start, nextIndex, ncaches, k)
      {
        ghost var before := nextIndex;
        ok := MakeCacheLevel(ncaches, protos, true);
        if !ok { return; }
        AdvancedNext(start, before, nextIndex, ncaches, k);
        assert (k + 1) * each == k * each + each && (k + 1) * below == k * below + below;
      }
      ok := true;
    }
  }

  /** `to` is `from` after `k` subtrees with the caches `cs` have been made. */
  ghost predicate Advanced(from: seq<nat>, to: seq<nat>, cs: seq<nat>, k: nat) {
    && |from| == |to| > |cs|
    && (forall l :: 0 <= l <= |cs| ==> to[l] == from[l] + k * Product(cs[..|cs| - l]))
    && (forall l :: |cs| < l < |from| ==> to[l] == from[l])
  }

  lemma AdvancedNext(start: seq<nat>, before: seq<nat>, after: seq<nat>, cs: seq<nat>, k: nat)
    requires Advanced(start, before, cs, k) && Advanced(before, after, cs, 1)
    ensures Advanced(start, after, cs, k + 1)
  {
    forall l | 0 <= l <= |cs| ensures after[l] == start[l] + (k + 1) * Product(cs[..|cs| - l]) {
      var p := Product(cs[..|cs| - l]);
      assert before[l] == start[l] + k * p && after[l] == before[l] + 1 * p;
    }
  }

  lemma AdvancedUp(from: seq<nat>, start: seq<nat>, to: seq<nat>, cs: seq<nat>)
    requires cs != [] && |cs| < |from| && start == from[|cs| := from[|cs|] + 1]
    requires Advanced(start, to, cs[1..], cs[0])
    ensures Advanced(from, to, cs, 1)
  {
    forall l | 0 <= l <= |cs| ensures to[l] == from[l] + 1 * Product(cs[..|cs| - l]) {
      if l == |cs| {
        assert cs[..0] == [];
      } else {
        var above := cs[1..];
        assert cs[..|cs| - l] == [cs[0]] + above[..|above| - l];
        ProductFront(cs[0], above[..|above| - l]);
        assert to[l] == start[l] + cs[0] * Product(above[..|above| - l]);
      }
    }
  }

  lemma AdvancedLeaf(from: seq<nat>, to: seq<nat>)
    requires |from| > 0 && to == from[0 := from[0] + 1]
    ensures Advanced(from, to, [], 1)
  {
    var none: seq<nat> := [];
    assert none[..0] == none;
  }

  /* ---- the script ---- */

  function Nats(s: seq<int>): (r: seq<nat>)
    requires forall i :: 0 <= i < |s| ==> s[i] >= 0
    ensures |r| == |s| && forall i :: 0 <= i < |s| ==> r[i] == s[i]
  {
    seq(|s|, i requires 0 <= i < |s| => s[i])
  }

  /** The specifications the script accepts. */
  ghost predicate Accepted(cachespec: seq<int>, testerspec: seq<int>) {
    && |cachespec| >= 1 && |testerspec| == |cachespec| + 1
    && (forall i :: 0 <= i < |testerspec| ==> testerspec[i] >= 0) && testerspec[|testerspec| - 1] > 0
    && (forall i :: 0 <= i < |cachespec| ==> cachespec[i] >= 1)
    && Testers(Nats(cachespec), Nats(testerspec)) <= 64
  }

  method Validate(cachespec: seq<int>, testerspec: seq<int>) returns (ok: bool)
    ensures ok <==> Accepted(cachespec, testerspec)
  {
    if |cachespec| < 1 || |cachespec| != |testerspec| - 1 { return false; }
    if testerspec[|testerspec| - 1] == 0 { return false; }
    for i := 0 to |testerspec|
      invariant forall k :: 0 <= k < i ==> testerspec[k] >= 0
    {
      if testerspec[i] < 0 { return false; }
    }
    for i := 0 to |cachespec|
      invariant forall k :: 0 <= k < i ==> cachespec[k] >= 1
    {
      if cachespec[i] < 1 { return false; }
    }
    var total := NumTesters(Nats(cachespec), Nats(testerspec));
    ok := total <= BLOCK_SIZE;
  }

  /** Every accepted specification gives a tree with as many testers as the closed form says, so no
      more than the block size allows, and with as many subsystems on each level as the caches
      towards the memory multiply to, each under its own name. */
  method BuildTree(cachespec: seq<int>, testerspec: seq<int>, l1: Prototype) returns (tree: Builder?)
    ensures tree != null <==> Accepted(cachespec, testerspec)
    ensures tree != null ==>
              && tree.Valid() && tree.cachespec == Nats(cachespec) && tree.testerspec == Nats(testerspec)
              && tree.testers == Testers(tree.cachespec, tree.testerspec) <= 64
              && |tree.caches| == Caches(tree.cachespec)
              && (forall i :: 0 <= i < |tree.caches| ==>
                    && 1 <= tree.caches[i].level <= |cachespec|
                    && tree.caches[i].proto == PrototypeAt(l1, tree.cachespec, tree.caches[i].level - 1))
              && forall l :: 0 <= l <= |cachespec| ==>
                   tree.nextIndex[l] == Product(tree.cachespec[..|cachespec| - l])
  {
    var ok := Validate(cachespec, testerspec);
    if !ok { return null; }
    tree := new Builder(Nats(cachespec), Nats(testerspec));
    ghost var start := tree.nextIndex;
    var n := |cachespec|;
    assert tree.cachespec[0..] == tree.cachespec && tree.testerspec[0..] == tree.testerspec;
    var protos := MakePrototypes(l1, tree.cachespec);
    ok := tree.MakeCacheLevel(tree.cachespec, protos, false);
    assert ok;
    forall l | 0 <= l <= n ensures tree.nextIndex[l] == Product(tree.cachespec[..n - l]) {
      assert tree.nextIndex[l] == start[l] + 1 * Product(tree.cachespec[..n - l]);
    }
  }
}
