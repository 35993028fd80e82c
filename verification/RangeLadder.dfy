/** The ladder of memory sizes of the latency test: four sizes to each power of two. */
module RangeLadder {
  import opened Arith
  import opened Bits

  /** The test with which the script recognises powers of two. */
  predicate IsPow2(n: nat) { n != 0 && BitAnd(n, n - 1) == 0 }

  lemma {:induction false} AndSelf(m: nat)
    ensures BitAnd(m, m) == m
  {
    if m == 0 {
    } else {
      AndSelf(m / 2);
    }
  }

  lemma IsPow2Double(m: nat)
    ensures IsPow2(2 * m) <==> IsPow2(m)
  {
    if m > 0 {
      assert (2 * m - 1) / 2 == m - 1 && (2 * m - 1) % 2 == 1;
    }
  }

  lemma IsPow2Odd(m: nat)
    ensures IsPow2(2 * m + 1) <==> m == 0
  {
    AndSelf(m);
    assert (2 * m + 1) / 2 == m && (2 * m) / 2 == m;
    if m == 0 { assert BitAnd(1, 0) == 2 * BitAnd(0, 0) + 0; }
  }

  ghost predicate PowerOfTwo(n: nat) { exists k: nat :: n == Pow2(k) }

  lemma PowerDouble(m: nat)
    ensures PowerOfTwo(2 * m) <==> PowerOfTwo(m)
  {
    if k: nat :| m == Pow2(k) { assert 2 * m == Pow2(k + 1); }
    if k: nat :| 2 * m == Pow2(k) {
      assert k > 0;
      assert m == Pow2(k - 1);
    }
  }

  lemma PowerOdd(m: nat)
    ensures PowerOfTwo(2 * m + 1) <==> m == 0
  {
    if m == 0 { assert 2 * m + 1 == Pow2(0); }
    forall k: nat | m > 0 ensures 2 * m + 1 != Pow2(k) {
      if k > 0 { assert Pow2(k) == 2 * Pow2(k - 1); }
    }
  }

  /** The test is true of exactly the powers of two. */
  lemma {:induction false} IsPow2Exact(n: nat)
    ensures IsPow2(n) <==> PowerOfTwo(n)
  {
    var m := n / 2;
    if n == 0 {
    } else if n % 2 == 1 {
      IsPow2Odd(m);
      PowerOdd(m);
      assert n == 2 * m + 1;
    } else {
      IsPow2Exact(m);
      IsPow2Double(m);
      PowerDouble(m);
      assert n == 2 * m;
    }
  }

  lemma {:induction false} IsPow2Times(c: nat, k: nat)
    ensures IsPow2(c * Pow2(k)) <==> IsPow2(c)
  {
    if k > 0 {
      IsPow2Times(c, k - 1);
      IsPow2Double(c * Pow2(k - 1));
      Doubled(c, Pow2(k - 1));
    } else {
      assert c * Pow2(0) == c;
    }
  }

  /** The step from rung `i`: a quarter of the power of two that the rung has reached. */
  function Quarter(i: nat): (r: nat)
    ensures r > 0
  {
    Pow2(10 + i / 4)
  }

  /** The size on rung `i`. */
  function Size(i: nat): (r: nat)
  {
    if i == 0 then 4096 else Size(i - 1) + Quarter(i - 1)
  }

  lemma QuarterNext(i: nat)
    ensures Quarter(i + 1) == if i % 4 == 3 then 2 * Quarter(i) else Quarter(i)
  {
    if i % 4 == 3 {
      assert (i + 1) / 4 == i / 4 + 1;
    } else {
      assert (i + 1) / 4 == i / 4;
    }
  }

  lemma FirstRung()
    ensures Quarter(0) == 1024
  {
    assert Pow2(5) == 32;
    PowAdd(5, 5);
  }

  lemma AddQuarter(c: nat, p: nat)
    ensures c * p + p == (c + 1) * p
    ensures 8 * p == 4 * (2 * p)
  {
  }

  /** Between powers of two the sizes are multiples of a quarter. */
  lemma {:induction false} SizeIsQuarters(i: nat)
    ensures Size(i) == (4 + i % 4) * Quarter(i)
  {
    if i == 0 {
      FirstRung();
    } else {
      SizeIsQuarters(i - 1);
      QuarterNext(i - 1);
      AddQuarter(4 + (i - 1) % 4, Quarter(i - 1));
      NextQuarter(i - 1);
    }
  }

  lemma NextQuarter(i: nat)
    ensures (i + 1) % 4 == if i % 4 == 3 then 0 else i % 4 + 1
  {
  }

  lemma PowerAfterQuarters(c: nat)
    requires 4 <= c <= 7
    ensures IsPow2(c + 1) <==> c == 7
  {
    QuarterSteps();
  }

  lemma QuarterSteps()
    ensures IsPow2(8) && !IsPow2(5) && !IsPow2(6) && !IsPow2(7)
  {
    IsPow2Odd(0);
    IsPow2Odd(1);
    IsPow2Odd(2);
    IsPow2Odd(3);
    IsPow2Double(1);
    IsPow2Double(2);
    IsPow2Double(4);
    IsPow2Double(3);
    assert !IsPow2(2 * 1 + 1) && !IsPow2(2 * 2 + 1) && !IsPow2(2 * 3 + 1) && IsPow2(2 * 0 + 1);
  }

  /** The next rung is at most five quarters of the rung, and a power of two after every four
      rungs, which is when the step doubles. */
  lemma NextRung(i: nat)
    ensures 4 * Size(i + 1) <= 5 * Size(i)
    ensures IsPow2(Size(i + 1)) <==> i % 4 == 3
    ensures Quarter(i + 1) == if IsPow2(Size(i + 1)) then 2 * Quarter(i) else Quarter(i)
  {
    var c, p := 4 + i % 4, Quarter(i);
    SizeIsQuarters(i);
    AddQuarter(c, p);
    assert Size(i + 1) == (c + 1) * p;
    IsPow2Times(c + 1, 10 + i / 4);
    PowerAfterQuarters(c);
    QuarterNext(i);
    MulMonotone(4, c, p);
  }

  /** Every fourth rung is a power of two, from 4096 on. */
  lemma Octaves(k: nat)
    ensures Size(4 * k) == Pow2(12 + k)
    ensures Size(0) == 4096
  {
    assert (4 * k) % 4 == 0 && (4 * k) / 4 == k;
    SizeIsQuarters(4 * k);
    assert Size(4 * k) == 4 * Pow2(10 + k);
    assert Pow2(12 + k) == 2 * Pow2(11 + k) && Pow2(11 + k) == 2 * Pow2(10 + k);
  }

  /** The rungs from the first one, all but the last below the memory size. */
  ghost predicate Rungs(ranges: seq<nat>, maxRange: int) {
    && ranges != []
    && (forall i :: 0 <= i < |ranges| ==> ranges[i] == Size(i))
    && (forall i :: 0 <= i < |ranges| - 1 ==> ranges[i] < maxRange)
  }

  lemma RungsNext(ranges: seq<nat>, maxRange: int)
    requires Rungs(ranges, maxRange) && ranges[|ranges| - 1] < maxRange
    ensures Rungs(ranges + [ranges[|ranges| - 1] + Quarter(|ranges| - 1)], maxRange)
  {
    var n := |ranges|;
    var next := ranges[n - 1] + Quarter(n - 1);
    assert ranges[n - 1] == Size(n - 1);
    SizeNext(n - 1);
    forall i | 0 <= i < n + 1 ensures (ranges + [next])[i] == Size(i) {
      if i < n { assert ranges[i] == Size(i); }
    }
  }

  lemma SizeNext(i: nat)
    ensures Size(i + 1) == Size(i) + Quarter(i)
  {
  }

  lemma LadderEnd(ranges: seq<nat>, maxRange: int)
    requires Rungs(ranges, maxRange) && maxRange > 4096 && ranges[|ranges| - 1] >= maxRange
    ensures 4 * ranges[|ranges| - 1] < 5 * maxRange
  {
    Octaves(0);
    NextRung(|ranges| - 2);
  }

  /** Builds the ladder: the rungs up to the first that reaches the memory size, which is less than
      five quarters of it. */
  method Ladder(maxRange: int) returns (ranges: seq<nat>)
    ensures Rungs(ranges, maxRange)
    ensures ranges[|ranges| - 1] >= maxRange
    ensures maxRange > 4096 ==> 4 * ranges[|ranges| - 1] < 5 * maxRange
  {
    FirstRung();
    ranges := [4096];
    var step: nat := 1024;
    while ranges[|ranges| - 1] < maxRange
      invariant Rungs(ranges, maxRange) && step == Quarter(|ranges| - 1)
      decreases maxRange - ranges[|ranges| - 1]
    {
      RungsNext(ranges, maxRange);
      NextRung(|ranges| - 1);
      var newRange := ranges[|ranges| - 1] + step;
      assert newRange == Size(|ranges|);
      if IsPow2(newRange) {
        step := step * 2;
      }
      ranges := ranges + [newRange];
    }
    if maxRange > 4096 { LadderEnd(ranges, maxRange); }
  }
}
