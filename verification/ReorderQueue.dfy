/**
 The bounded print queue of the pipeline viewer. It fills in arrival order; when it holds more
 than MAX_THRESHOLD instructions it is sorted and its front is printed until MIN_THRESHOLD are
 left. The results say exactly when this prints what sorting the whole trace would print.
 */
module ReorderQueue {
  import opened Sorting
  import opened PipeInst

  const MAX_THRESHOLD: nat := 2000
  const MIN_THRESHOLD: nat := 1000
  /** How many instructions a full queue gives out. */
  const BATCH: nat := MAX_THRESHOLD - MIN_THRESHOLD + 1

  /* ---- the queue as a state machine over values ---- */

  /** `drained` holds every instruction taken from the queue so far, wanted or not. */
  datatype State = State(queue: seq<Inst>, drained: seq<Inst>)

  function Drain(st: State, lower: nat): (r: State)
  {
    var s := StableSort(BY_SN, st.queue);
    var k := if |s| > lower then |s| - lower else 0;
    State(s[k..], st.drained + s[..k])
  }

  function Push(st: State, x: Inst): (r: State)
  {
    var st' := st.(queue := st.queue + [x]);
    if |st'.queue| > MAX_THRESHOLD then Drain(st', MIN_THRESHOLD) else st'
  }

  /** The state after the instructions `xs` have arrived in this order. */
  function Run(xs: seq<Inst>): (r: State)
  {
    if xs == [] then State([], []) else Push(Run(xs[..|xs| - 1]), xs[|xs| - 1])
  }

  /** Everything the queue gives out over a whole run, including the final flush. */
  function Output(xs: seq<Inst>): (r: seq<Inst>)
  {
    Drain(Run(xs), 0).drained
  }

  /* ---- what holds of every run ---- */

  lemma RunSnoc(xs: seq<Inst>, x: Inst)
    ensures Run(xs + [x]) == Push(Run(xs), x)
  {
    assert (xs + [x])[..|xs|] == xs;
  }

  lemma DrainConserves(st: State, lower: nat)
    ensures var r := Drain(st, lower);
            && multiset(r.queue) + multiset(r.drained) == multiset(st.queue) + multiset(st.drained)
            && st.drained <= r.drained
            && |r.queue| == if |st.queue| > lower then lower else |st.queue|
  {
    var s := StableSort(BY_SN, st.queue);
    SortFacts(BY_SN, st.queue);
    var k := if |s| > lower then |s| - lower else 0;
    assert s == s[..k] + s[k..];
  }

  /** At every moment each arrived instruction is in the queue or given out, exactly once. */
  lemma {:induction false} RunConserves(xs: seq<Inst>)
    ensures multiset(Run(xs).queue) + multiset(Run(xs).drained) == multiset(xs)
  {
    if xs == [] {
    } else {
      var a, x := xs[..|xs| - 1], xs[|xs| - 1];
      RunConserves(a);
      assert xs == a + [x];
      var st := Run(a);
      DrainConserves(st.(queue := st.queue + [x]), MIN_THRESHOLD);
    }
  }

  /** Nothing is lost and nothing is printed twice, however disordered the trace is. */
  lemma {:induction false} OutputIsPermutation(xs: seq<Inst>)
    ensures multiset(Output(xs)) == multiset(xs)
  {
    RunConserves(xs);
    DrainConserves(Run(xs), 0);
  }

  /** How many instructions the queue holds after `n` arrivals. */
  function QueueLength(n: nat): (r: nat)
    ensures r <= n
    ensures n >= MIN_THRESHOLD ==> r >= MIN_THRESHOLD
  {
    if n <= MAX_THRESHOLD then n
    else MIN_THRESHOLD + (n - MAX_THRESHOLD - 1) % BATCH
  }

  lemma QueueLengthStep(n: nat)
    ensures QueueLength(n) <= 2000
    ensures QueueLength(n + 1) == if QueueLength(n) + 1 > 2000 then 1000 else QueueLength(n) + 1
  {
    assert BATCH == 1001;
  }

  lemma PushLength(st: State, x: Inst)
    ensures |Push(st, x).queue| == if |st.queue| + 1 > 2000 then 1000 else |st.queue| + 1
  {
    DrainConserves(st.(queue := st.queue + [x]), MIN_THRESHOLD);
  }

  lemma {:induction false} RunQueueLength(xs: seq<Inst>)
    ensures |Run(xs).queue| == QueueLength(|xs|) <= 2000
  {
    if xs == [] {
    } else {
      var a, x := xs[..|xs| - 1], xs[|xs| - 1];
      RunQueueLength(a);
      QueueLengthStep(|a|);
      PushLength(Run(a), x);
    }
  }

  lemma {:induction false} DrainedGrows(xs: seq<Inst>, n: nat)
    requires n <= |xs|
    ensures Run(xs[..n]).drained <= Run(xs).drained
    decreases |xs|
  {
    if n == |xs| {
      assert xs[..n] == xs;
    } else {
      var a, x := xs[..|xs| - 1], xs[|xs| - 1];
      DrainedGrows(a, n);
      assert a[..n] == xs[..n];
      var st := Run(a);
      DrainConserves(st.(queue := st.queue + [x]), MIN_THRESHOLD);
    }
  }

  /* ---- instructions with the same number ---- */

  function Numbered(v: int): Inst -> bool { (x: Inst) => x.sn == v }

  /** The instructions numbered `v` that have arrived, in the order in which they come out. */
  function Kept(st: State, v: int): (r: seq<Inst>)
  {
    Select(Numbered(v), st.drained) + Select(Numbered(v), st.queue)
  }

  lemma DrainKeepsArrivals(st: State, lower: nat, v: int)
    ensures Kept(Drain(st, lower), v) == Kept(st, v)
  {
    var s := StableSort(BY_SN, st.queue);
    SortIsStable(Numbered(v), BY_SN, st.queue, v);
    SelectMoved(Numbered(v), st.drained, s, if |s| > lower then |s| - lower else 0);
  }

  lemma PushKeepsArrivals(st: State, x: Inst, v: int)
    ensures Kept(Push(st, x), v) == Kept(st, v) + (if x.sn == v then [x] else [])
  {
    var st' := st.(queue := st.queue + [x]);
    SelectSnoc(Numbered(v), st.queue, x);
    assert Kept(st', v) == Kept(st, v) + (if x.sn == v then [x] else []);
    DrainKeepsArrivals(st', MIN_THRESHOLD, v);
  }

  lemma {:induction false} RunKeepsArrivals(xs: seq<Inst>, v: int)
    ensures Kept(Run(xs), v) == Select(Numbered(v), xs)
  {
    if xs == [] {
    } else {
      var a, x := xs[..|xs| - 1], xs[|xs| - 1];
      RunKeepsArrivals(a, v);
      PushKeepsArrivals(Run(a), x, v);
    }
  }

  /** However disordered the trace is, instructions with the same sequence number come out in the
      order in which they arrived. */
  lemma {:induction false} SameNumberInOrder(xs: seq<Inst>, v: int)
    ensures Select(Numbered(v), Output(xs)) == Select(Numbered(v), xs)
  {
    RunKeepsArrivals(xs, v);
    DrainKeepsArrivals(Run(xs), 0, v);
    DrainConserves(Run(xs), 0);
  }

  /* ---- exactly when the output is in order ---- */

  /** How many instructions that belong behind `xs[n]` arrived before it. */
  function Overtakers(xs: seq<Inst>, n: nat): (r: nat)
    requires n < |xs|
  {
    CountGt(BY_SN, xs[..n], xs[n].sn)
  }

  /** No arrival is overtaken by more instructions than the queue then holds. */
  ghost predicate ArrivesInTime(xs: seq<Inst>) {
    forall n :: 0 <= n < |xs| ==> Overtakers(xs, n) <= QueueLength(n)
  }

  lemma ArrivesInTimePrefix(xs: seq<Inst>, m: nat)
    requires ArrivesInTime(xs) && m <= |xs|
    ensures ArrivesInTime(xs[..m])
  {
    forall n | 0 <= n < m ensures Overtakers(xs[..m], n) <= QueueLength(n) {
      assert xs[..m][..n] == xs[..n];
      assert Overtakers(xs, n) <= QueueLength(n);
    }
  }

  /** What was given out followed by the sorted queue is the sorted input, as long as the
      arriving instruction belongs behind everything that was given out. */
  lemma {:induction false} PushKeepsOrder(st: State, x: Inst, done: seq<Inst>)
    requires StableSort(BY_SN, done) == st.drained + StableSort(BY_SN, st.queue)
    requires CountGt(BY_SN, done, x.sn) <= |st.queue|
    ensures var r := Push(st, x);
            StableSort(BY_SN, done + [x]) == r.drained + StableSort(BY_SN, r.queue)
  {
    var all := StableSort(BY_SN, done);
    SortFacts(BY_SN, done);
    SortFacts(BY_SN, st.queue);
    CountSort(BY_SN, done, x.sn);
    forall i | 0 <= i < |st.drained| ensures BY_SN(st.drained[i]) <= BY_SN(x) {
      CountInSorted(BY_SN, all, x.sn, i);
      assert all[i] == st.drained[i];
    }
    SortSnoc(BY_SN, done, x);
    InsertBehind(BY_SN, x, st.drained, StableSort(BY_SN, st.queue));
    SortSnoc(BY_SN, st.queue, x);
    DrainKeepsOrder(st.(queue := st.queue + [x]), MIN_THRESHOLD);
  }

  lemma SplitBehind<T>(a: seq<T>, s: seq<T>, k: nat)
    requires k <= |s|
    ensures a + s == a + s[..k] + s[k..]
  {
  }

  lemma DrainKeepsOrder(st: State, lower: nat)
    ensures var r := Drain(st, lower);
            st.drained + StableSort(BY_SN, st.queue) == r.drained + StableSort(BY_SN, r.queue)
  {
    var s := StableSort(BY_SN, st.queue);
    SortFacts(BY_SN, st.queue);
    var k := if |s| > lower then |s| - lower else 0;
    SortOfSorted(BY_SN, s[k..]);
    SplitBehind(st.drained, s, k);
  }

  lemma {:induction false} RunInOrder(xs: seq<Inst>)
    requires ArrivesInTime(xs)
    ensures StableSort(BY_SN, xs) == Run(xs).drained + StableSort(BY_SN, Run(xs).queue)
  {
    if xs == [] {
    } else {
      var n := |xs| - 1;
      var a, x := xs[..n], xs[n];
      assert xs == a + [x];
      ArrivesInTimePrefix(xs, n);
      RunInOrder(a);
      RunQueueLength(a);
      assert Overtakers(xs, n) <= QueueLength(n);
      PushKeepsOrder(Run(a), x, a);
    }
  }

  lemma {:induction false} OutputSorted(xs: seq<Inst>)
    requires ArrivesInTime(xs)
    ensures Output(xs) == StableSort(BY_SN, xs)
  {
    RunInOrder(xs);
    DrainKeepsOrder(Run(xs), 0);
    DrainConserves(Run(xs), 0);
    var r := Drain(Run(xs), 0);
    assert r.queue == [];
    assert r.drained + [] == r.drained;
  }

  lemma RestHolds<T>(out: seq<T>, d: seq<T>, a: multiset<T>, rest: seq<T>) returns (j: nat)
    requires d <= out && multiset(d) <= a && rest != []
    requires multiset(out) == a + multiset(rest)
    ensures |d| <= j < |out| && out[j] == rest[0]
  {
    var tail := out[|d|..];
    assert out == d + tail;
    assert multiset(rest)[rest[0]] > 0;
    assert multiset(out)[rest[0]] == multiset(d)[rest[0]] + multiset(tail)[rest[0]];
    var k :| 0 <= k < |tail| && tail[k] == rest[0];
    j := |d| + k;
  }

  lemma {:induction false} OutputSplits(xs: seq<Inst>, n: nat)
    requires n <= |xs|
    ensures multiset(Output(xs)) == multiset(xs[..n]) + multiset(xs[n..])
    ensures multiset(Run(xs[..n]).drained) <= multiset(xs[..n])
  {
    OutputIsPermutation(xs);
    RunConserves(xs[..n]);
    BagSplits(xs, n);
  }

  lemma BagSplits<T>(xs: seq<T>, n: nat)
    requires n <= |xs|
    ensures multiset(xs) == multiset(xs[..n]) + multiset(xs[n..])
  {
    assert xs == xs[..n] + xs[n..];
  }

  lemma {:induction false} DrainedBefore(xs: seq<Inst>, n: nat)
    requires n <= |xs|
    ensures Run(xs[..n]).drained <= Output(xs)
  {
    DrainedGrows(xs, n);
    DrainConserves(Run(xs), 0);
  }

  /** What a run gives out from `xs[n]`'s arrival on contains `xs[n]`. */
  lemma {:induction false} LaterOutputHolds(xs: seq<Inst>, n: nat) returns (j: nat)
    requires n < |xs|
    ensures |Run(xs[..n]).drained| <= j < |Output(xs)| && Output(xs)[j] == xs[n]
    ensures Run(xs[..n]).drained <= Output(xs)
  {
    DrainedBefore(xs, n);
    OutputSplits(xs, n);
    assert xs[n..][0] == xs[n];
    j := RestHolds(Output(xs), Run(xs[..n]).drained, multiset(xs[..n]), xs[n..]);
  }

  /** The first arrival that comes too late is printed behind an instruction it belongs before. */
  lemma LateArrivalBreaksOrder(xs: seq<Inst>, n: nat)
    requires n < |xs| && ArrivesInTime(xs[..n]) && Overtakers(xs, n) > QueueLength(n)
    ensures !Sorted(BY_SN, Output(xs))
  {
    var a, x := xs[..n], xs[n];
    var st, all := Run(a), StableSort(BY_SN, a);
    RunInOrder(a);
    RunQueueLength(a);
    SortFacts(BY_SN, a);
    SortFacts(BY_SN, st.queue);
    CountSort(BY_SN, a, x.sn);
    var i := |st.drained| - 1;
    CountInSorted(BY_SN, all, x.sn, i);
    assert all[i] == st.drained[i];
    var j := LaterOutputHolds(xs, n);
    var out := Output(xs);
    assert out[i] == st.drained[i];
    assert BY_SN(out[i]) > BY_SN(out[j]);
  }

  /** The first position that violates the bound, if there is one. */
  lemma FirstLate(xs: seq<Inst>) returns (n: nat)
    requires !ArrivesInTime(xs)
    ensures n < |xs| && ArrivesInTime(xs[..n]) && Overtakers(xs, n) > QueueLength(n)
  {
    n := 0;
    assert xs[..0] == [];
    while Overtakers(xs, n) <= QueueLength(n)
      invariant n < |xs|
      invariant ArrivesInTime(xs[..n])
      invariant forall m :: 0 <= m < n ==> Overtakers(xs, m) <= QueueLength(m)
      decreases |xs| - n
    {
      forall m | 0 <= m < n + 1 ensures Overtakers(xs[..n + 1], m) <= QueueLength(m) {
        assert xs[..n + 1][..m] == xs[..m];
        assert Overtakers(xs, m) <= QueueLength(m);
      }
      n := n + 1;
    }
  }

  /** The bounded queue gives out the stably sorted trace if and only if no arrival is overtaken
      by more instructions than the queue then holds. */
  lemma {:induction false} OutputSortedIff(xs: seq<Inst>)
    ensures Output(xs) == StableSort(BY_SN, xs) <==> ArrivesInTime(xs)
  {
    if ArrivesInTime(xs) {
      OutputSorted(xs);
    } else {
      var n := FirstLate(xs);
      LateArrivalBreaksOrder(xs, n);
      SortFacts(BY_SN, xs);
    }
  }

  /* ---- exactly when what a filter keeps of the output is in order ---- */

  /** `x` belongs before nothing that satisfies `p` and was given out already. */
  ghost predicate InTimeFor(p: Inst -> bool, drained: seq<Inst>, x: Inst) {
    forall k :: 0 <= k < |drained| && p(drained[k]) ==> drained[k].sn <= x.sn
  }

  /** No arrival that satisfies `p` belongs before one that does and was given out already. */
  ghost predicate SelectedInTime(p: Inst -> bool, xs: seq<Inst>) {
    forall n :: 0 <= n < |xs| && p(xs[n]) ==> InTimeFor(p, Run(xs[..n]).drained, xs[n])
  }

  /** What a filter sees of the state: what was given out, then the rest in order. */
  function Seen(p: Inst -> bool, st: State): (r: seq<Inst>)
  {
    Select(p, st.drained) + StableSort(BY_SN, Select(p, st.queue))
  }

  lemma {:induction false} DrainKeepsSeen(p: Inst -> bool, st: State, lower: nat)
    ensures Seen(p, Drain(st, lower)) == Seen(p, st)
  {
    var s := StableSort(BY_SN, st.queue);
    var k := if |s| > lower then |s| - lower else 0;
    SortFacts(BY_SN, st.queue);
    SelectSort(p, BY_SN, st.queue);
    SortOfSorted(BY_SN, s[k..]);
    SelectSort(p, BY_SN, s[k..]);
    SelectMoved(p, st.drained, s, k);
  }

  /** An arrival that comes in time is seen where sorting puts it. */
  lemma {:induction false} ArrivalSeen(p: Inst -> bool, st: State, x: Inst, done: seq<Inst>)
    requires StableSort(BY_SN, Select(p, done)) == Seen(p, st)
    requires p(x) ==> InTimeFor(p, st.drained, x)
    ensures StableSort(BY_SN, Select(p, done + [x])) == Seen(p, st.(queue := st.queue + [x]))
  {
    SelectSnoc(p, done, x);
    SelectSnoc(p, st.queue, x);
    if p(x) {
      SelectedBelow(p, st.drained, x);
      SortSnoc(BY_SN, Select(p, done), x);
      SortSnoc(BY_SN, Select(p, st.queue), x);
      InsertBehind(BY_SN, x, Select(p, st.drained), StableSort(BY_SN, Select(p, st.queue)));
    } else {
      assert Select(p, done) + [] == Select(p, done) && Select(p, st.queue) + [] == Select(p, st.queue);
    }
  }

  lemma SelectedBelow(p: Inst -> bool, drained: seq<Inst>, x: Inst)
    requires InTimeFor(p, drained, x)
    ensures forall i :: 0 <= i < |Select(p, drained)| ==> BY_SN(Select(p, drained)[i]) <= BY_SN(x)
  {
    forall i | 0 <= i < |Select(p, drained)| ensures BY_SN(Select(p, drained)[i]) <= BY_SN(x) {
      SelectMember(p, drained, i);
    }
  }

  lemma {:induction false} RunSeen(p: Inst -> bool, xs: seq<Inst>)
    requires SelectedInTime(p, xs)
    ensures StableSort(BY_SN, Select(p, xs)) == Seen(p, Run(xs))
  {
    if xs == [] {
    } else {
      var n := |xs| - 1;
      var a, x := xs[..n], xs[n];
      assert xs == a + [x];
      SelectedInTimePrefix(p, xs, n);
      RunSeen(p, a);
      ArrivalSeen(p, Run(a), x, a);
      DrainKeepsSeen(p, Run(a).(queue := Run(a).queue + [x]), MIN_THRESHOLD);
    }
  }

  lemma SelectedInTimePrefix(p: Inst -> bool, xs: seq<Inst>, m: nat)
    requires SelectedInTime(p, xs) && m <= |xs|
    ensures SelectedInTime(p, xs[..m])
  {
    forall n | 0 <= n < m && p(xs[..m][n]) ensures InTimeFor(p, Run(xs[..m][..n]).drained, xs[..m][n]) {
      assert xs[..m][..n] == xs[..n];
      assert InTimeFor(p, Run(xs[..n]).drained, xs[n]);
    }
  }

  lemma {:induction false} SelectedSorted(p: Inst -> bool, xs: seq<Inst>)
    requires SelectedInTime(p, xs)
    ensures Select(p, Output(xs)) == Select(p, StableSort(BY_SN, xs))
  {
    RunSeen(p, xs);
    DrainKeepsSeen(p, Run(xs), 0);
    DrainConserves(Run(xs), 0);
    assert Drain(Run(xs), 0).queue == [];
    assert Select(p, Output(xs)) + [] == Select(p, Output(xs));
    SelectSort(p, BY_SN, xs);
  }

  lemma LateForFilter(p: Inst -> bool, xs: seq<Inst>, n: nat)
    requires n < |xs| && p(xs[n]) && !InTimeFor(p, Run(xs[..n]).drained, xs[n])
    ensures !Sorted(BY_SN, Select(p, Output(xs)))
  {
    var k :| 0 <= k < |Run(xs[..n]).drained|
             && p(Run(xs[..n]).drained[k]) && Run(xs[..n]).drained[k].sn > xs[n].sn;
    var j := LaterOutputHolds(xs, n);
    assert Output(xs)[k] == Run(xs[..n]).drained[k];
    var out := Output(xs);
    SelectAround(p, out, k, j);
    if Sorted(BY_SN, Select(p, out)) {
      JoinedOrder(Select(p, out[..j]), Select(p, out[j..]), out[k], out[j]);
    }
  }

  lemma JoinedOrder(a: seq<Inst>, b: seq<Inst>, x: Inst, y: Inst)
    requires Sorted(BY_SN, a + b) && x in a && y in b
    ensures x.sn <= y.sn
  {
    var m :| 0 <= m < |a| && a[m] == x;
    var n :| 0 <= n < |b| && b[n] == y;
    assert (a + b)[m] == x && (a + b)[|a| + n] == y;
    assert BY_SN((a + b)[m]) <= BY_SN((a + b)[|a| + n]);
  }

  /** For every trace and filter, the filtered output is the filtered sorted trace if and only if no
      arrival that passes the filter belongs before one that does and was given out already. */
  lemma {:induction false} SelectedSortedIff(p: Inst -> bool, xs: seq<Inst>)
    ensures Select(p, Output(xs)) == Select(p, StableSort(BY_SN, xs)) <==> SelectedInTime(p, xs)
  {
    if SelectedInTime(p, xs) {
      SelectedSorted(p, xs);
    } else {
      var n :| 0 <= n < |xs| && p(xs[n]) && !InTimeFor(p, Run(xs[..n]).drained, xs[n]);
      LateForFilter(p, xs, n);
      SelectSort(p, BY_SN, xs);
      SortFacts(BY_SN, Select(p, xs));
    }
  }

  lemma SeenBag(p: Inst -> bool, st: State)
    ensures multiset(Seen(p, st)) == multiset(Select(p, st.drained)) + multiset(Select(p, st.queue))
  {
    SortFacts(BY_SN, Select(p, st.queue));
  }

  lemma {:induction false} RunKeepsBag(p: Inst -> bool, xs: seq<Inst>)
    ensures multiset(Seen(p, Run(xs))) == multiset(Select(p, xs))
  {
    if xs == [] {
    } else {
      var a, x := xs[..|xs| - 1], xs[|xs| - 1];
      RunKeepsBag(p, a);
      PushAddsToBag(p, Run(a), x);
    }
  }

  lemma {:induction false} PushAddsToBag(p: Inst -> bool, st: State, x: Inst)
    ensures multiset(Seen(p, Push(st, x))) == multiset(Seen(p, st)) + (if p(x) then multiset{x} else multiset{})
  {
    QueueAddsToBag(p, st, x);
    DrainKeepsSeen(p, st.(queue := st.queue + [x]), MIN_THRESHOLD);
  }

  lemma {:induction false} QueueAddsToBag(p: Inst -> bool, st: State, x: Inst)
    ensures multiset(Seen(p, st.(queue := st.queue + [x])))
            == multiset(Seen(p, st)) + (if p(x) then multiset{x} else multiset{})
  {
    SelectBag(p, st.queue, x);
    SeenBag(p, st);
    SeenBag(p, st.(queue := st.queue + [x]));
  }

  /** However disordered the trace is, a filter keeps of the output what it keeps of the trace. */
  lemma {:induction false} SelectedIsPermutation(p: Inst -> bool, xs: seq<Inst>)
    ensures multiset(Select(p, Output(xs))) == multiset(Select(p, xs))
  {
    RunKeepsBag(p, xs);
    DrainKeepsSeen(p, Run(xs), 0);
    DrainConserves(Run(xs), 0);
    SeenBag(p, Drain(Run(xs), 0));
    assert Drain(Run(xs), 0).queue == [];
  }

  /** What comes in time for the queue comes in time for every filter. */
  lemma ArrivesForEveryFilter(p: Inst -> bool, xs: seq<Inst>)
    requires ArrivesInTime(xs)
    ensures SelectedInTime(p, xs)
  {
    OutputSorted(xs);
    SelectedSortedIff(p, xs);
  }

  /* ---- the assumption the source states: places out of order ---- */

  /** The place of `xs[i]` in the sorted trace. */
  function Rank(xs: seq<Inst>, i: nat): (r: nat)
    requires i < |xs|
  {
    (i - CountGt(BY_SN, xs[..i], xs[i].sn)) + CountLt(xs[i + 1..], xs[i].sn)
  }

  function CountLt(s: seq<Inst>, v: int): (n: nat)
  {
    |s| - CountGt(BY_SN, s, v - 1)
  }

  /** `Rank` is indeed the place in the sorted trace. */
  lemma {:induction false} RankIsPlace(xs: seq<Inst>, i: nat)
    requires i < |xs|
    ensures Rank(xs, i) < |StableSort(BY_SN, xs)| && StableSort(BY_SN, xs)[Rank(xs, i)] == xs[i]
    decreases |xs|
  {
    var n := |xs| - 1;
    var a, x := xs[..n], xs[n];
    assert xs == a + [x];
    SortAfterArrival(a, x);
    if i < n {
      RankIsPlace(a, i);
      RankAfterArrival(a, x, i);
      PlaceAfterArrival(a, x, Rank(a, i));
    } else {
      assert xs[n + 1..] == [];
    }
  }

  lemma {:induction false} SortAfterArrival(a: seq<Inst>, x: Inst)
    ensures var s, k := StableSort(BY_SN, a), |a| - CountGt(BY_SN, a, x.sn);
            |s| == |a| && StableSort(BY_SN, a + [x]) == s[..k] + [x] + s[k..]
  {
    var s, k := StableSort(BY_SN, a), |a| - CountGt(BY_SN, a, x.sn);
    SortedBySn(a, x);
    SortSnoc(BY_SN, a, x);
    InsertPlace(BY_SN, x, s, k);
    Regroup(s[..k], [x], s[k..]);
  }

  /** Where `x` belongs in the sorted instructions. */
  lemma {:induction false} SortedBySn(a: seq<Inst>, x: Inst)
    ensures var s, k := StableSort(BY_SN, a), |a| - CountGt(BY_SN, a, x.sn);
            |s| == |a| && forall i :: 0 <= i < |s| ==> (i < k <==> BY_SN(s[i]) <= BY_SN(x))
  {
    var s := StableSort(BY_SN, a);
    SortFacts(BY_SN, a);
    CountSort(BY_SN, a, x.sn);
    forall i | 0 <= i < |s| ensures i < |a| - CountGt(BY_SN, a, x.sn) <==> BY_SN(s[i]) <= BY_SN(x) {
      CountInSorted(BY_SN, s, x.sn, i);
    }
  }

  lemma Regroup<T>(a: seq<T>, b: seq<T>, c: seq<T>)
    ensures a + (b + c) == a + b + c
  {
  }

  lemma PlaceAfterArrival(a: seq<Inst>, x: Inst, r: nat)
    requires r < |StableSort(BY_SN, a)|
    ensures var s, t := StableSort(BY_SN, a), StableSort(BY_SN, a + [x]);
            |t| == |s| + 1 && t[if x.sn < s[r].sn then r + 1 else r] == s[r]
  {
    var s, k := StableSort(BY_SN, a), |a| - CountGt(BY_SN, a, x.sn);
    SortAfterArrival(a, x);
    assert r < k <==> s[r].sn <= x.sn by {
      SortFacts(BY_SN, a);
      CountSort(BY_SN, a, x.sn);
      CountInSorted(BY_SN, s, x.sn, r);
    }
    PlaceShift(s, x, k, r);
  }

  lemma PlaceShift<T>(s: seq<T>, x: T, k: nat, r: nat)
    requires k <= |s| && r < |s|
    ensures var t := s[..k] + [x] + s[k..];
            |t| == |s| + 1 && t[if r < k then r else r + 1] == s[r]
  {
  }

  lemma RankAfterArrival(a: seq<Inst>, x: Inst, i: nat)
    requires i < |a|
    ensures Rank(a + [x], i) == Rank(a, i) + if x.sn < a[i].sn then 1 else 0
  {
    assert (a + [x])[..i] == a[..i];
    assert (a + [x])[i + 1..] == a[i + 1..] + [x];
    CountConcat(BY_SN, a[i + 1..], [x], a[i].sn - 1);
    assert [x][..0] == [];
  }

  /** No instruction arrives more than `m` places behind its place in the sorted trace. */
  ghost predicate WithinPlaces(xs: seq<Inst>, m: nat) {
    forall i :: 0 <= i < |xs| ==> i - Rank(xs, i) <= m
  }

  /** A first instruction of least sequence number among those from `n` on. */
  lemma LeastFrom(xs: seq<Inst>, n: nat) returns (i: nat)
    requires n < |xs|
    ensures n <= i < |xs|
    ensures forall j :: n <= j < i ==> xs[j].sn > xs[i].sn
    ensures forall j :: i <= j < |xs| ==> xs[j].sn >= xs[i].sn
  {
    i := n;
    for k := n to |xs|
      invariant n <= i < |xs| && (if k == n then i == n else i < k)
      invariant forall j :: n <= j < i ==> xs[j].sn > xs[i].sn
      invariant forall j :: i <= j < k ==> xs[j].sn >= xs[i].sn
    {
      if xs[k].sn < xs[i].sn { i := k; }
    }
  }

  /** The rank of a least later arrival counts the overtakers of `xs[n]`. */
  lemma LeastRank(xs: seq<Inst>, n: nat, i: nat)
    requires n <= i < |xs|
    requires forall j :: n <= j < i ==> xs[j].sn > xs[i].sn
    requires forall j :: i <= j < |xs| ==> xs[j].sn >= xs[i].sn
    ensures Overtakers(xs, n) <= n - Rank(xs, i)
  {
    var v := xs[i].sn;
    assert xs[..i] == xs[..n] + xs[n..i];
    CountConcat(BY_SN, xs[..n], xs[n..i], v);
    CountAll(BY_SN, xs[n..i], v);
    CountAll(BY_SN, xs[i + 1..], v - 1);
    CountMonotone(BY_SN, xs[..n], v, xs[n].sn);
  }

  /** Being at most `m` places late is the same as being overtaken at most `m` times. */
  lemma PlacesAreOvertakers(xs: seq<Inst>, m: nat)
    ensures WithinPlaces(xs, m) <==> forall n :: 0 <= n < |xs| ==> Overtakers(xs, n) <= m
  {
    if WithinPlaces(xs, m) {
      forall n | 0 <= n < |xs| ensures Overtakers(xs, n) <= m {
        var i := LeastFrom(xs, n);
        LeastRank(xs, n, i);
        assert i - Rank(xs, i) <= m;
      }
    }
    if forall n :: 0 <= n < |xs| ==> Overtakers(xs, n) <= m {
      forall i | 0 <= i < |xs| ensures i - Rank(xs, i) <= m {
        assert Overtakers(xs, i) <= m;
      }
    }
  }

  /** The stated assumption suffices: within 1000 places, the output is sorted. */
  lemma WithinThresholdSorts(xs: seq<Inst>)
    requires WithinPlaces(xs, 1000)
    ensures ArrivesInTime(xs) && Output(xs) == StableSort(BY_SN, xs)
  {
    PlacesAreOvertakers(xs, MIN_THRESHOLD);
    forall n | 0 <= n < |xs| ensures Overtakers(xs, n) <= QueueLength(n) {
      assert Overtakers(xs, n) <= MIN_THRESHOLD;
    }
    OutputSorted(xs);
  }

  /** The stated assumption cannot be relaxed: one place more and the order may be lost. */
  lemma {:induction false} ThresholdIsTight() returns (xs: seq<Inst>)
    ensures WithinPlaces(xs, 1001)
    ensures Output(xs) != StableSort(BY_SN, xs)
  {
    var n := MAX_THRESHOLD + 1;
    var late := Inst(2 * MIN_THRESHOLD - 1, 0, 0, map[], "");
    var a := seq(n, i => Inst(2 * i, 0, 0, map[], ""));
    xs := a + [late];
    assert xs[..n] == a;
    assert CountGt(BY_SN, a, late.sn) == MIN_THRESHOLD + 1 by {
      CountInSorted(BY_SN, a, late.sn, MIN_THRESHOLD - 1);
      CountInSorted(BY_SN, a, late.sn, MIN_THRESHOLD);
    }
    assert Overtakers(xs, n) == MIN_THRESHOLD + 1 > QueueLength(n);
    forall i | 0 <= i < |xs| ensures Overtakers(xs, i) <= MIN_THRESHOLD + 1 {
      if i < n { CountNone(BY_SN, xs[..i], xs[i].sn); }
    }
    PlacesAreOvertakers(xs, MIN_THRESHOLD + 1);
    OutputSortedIff(xs);
  }

  /* ---- the queue as the source has it ---- */

  lemma PopStep<T>(a: seq<T>, b: seq<T>)
    requires b != []
    ensures a + [b[0]] + b[1..] == a + b
  {
  }

  lemma SameSplit<T>(a: seq<T>, b: seq<T>, c: seq<T>, d: seq<T>)
    requires a + b == c + d && |a| <= |c|
    ensures var k := |c| - |a|; k == |b| - |d| && d == b[k..] && c == a + b[..k]
  {
    var k := |c| - |a|;
    assert d == (a + b)[|a| + k..] == b[k..];
    assert c == (a + b)[..|a| + k] == a + b[..k];
  }

  lemma DrainedAs(st: State, lower: nat, r: State)
    requires var s := StableSort(BY_SN, st.queue);
             && st.drained + s == r.drained + r.queue && |st.drained| <= |r.drained|
             && |r.queue| == if |s| > lower then lower else |s|
    ensures r == Drain(st, lower)
  {
    SameSplit(st.drained, StableSort(BY_SN, st.queue), r.drained, r.queue);
  }

  class PrintQueue {
    const options: Options
    var queue: seq<Inst>
    var printed: seq<Inst>
    ghost var drained: seq<Inst>
    ghost var arrived: seq<Inst>

    ghost predicate Valid()
      reads this
    {
      printed == Select(Wants(options), drained)
    }

    ghost function Value(): State
      reads this
    {
      State(queue, drained)
    }

    /** `arrived` are the instructions queued so far. */
    ghost predicate Filling()
      reads this
    {
      Valid() && Value() == Run(arrived)
    }

    constructor (o: Options)
      ensures Filling() && options == o && arrived == []
    {
      options, queue, printed, drained, arrived := o, [], [], [], [];
    }

    /** Prints an item taken from the queue unless it is filtered out. */
    method PrintItem(item: Inst)
      requires Valid()
      modifies this`printed, this`drained
      ensures Valid() && drained == old(drained) + [item]
    {
      SelectSnoc(Wants(options), drained, item);
      drained := drained + [item];
      if Wanted(options, item) {
        printed := printed + [item];
      }
    }

    /** Takes items from the front until no more than `lower` are left. */
    method PrintFront(lower: nat)
      requires Valid()
      modifies this`queue, this`printed, this`drained
      ensures Valid()
      ensures old(drained) + old(queue) == drained + queue && |old(drained)| <= |drained|
      ensures |queue| == if |old(queue)| > lower then lower else |old(queue)|
    {
      while |queue| > lower
        invariant old(drained) + old(queue) == drained + queue && |old(drained)| <= |drained|
        invariant |queue| >= lower || queue == old(queue)
        invariant |queue| <= |old(queue)|
        invariant Valid()
      {
        PopStep(drained, queue);
        PrintItem(queue[0]);
        queue := queue[1..];
      }
    }

    method PrintInsts(lower: nat)
      requires Valid()
      modifies this`queue, this`printed, this`drained
      ensures Valid() && Value() == Drain(old(Value()), lower)
    {
      ghost var before := Value();
      queue := StableSort(BY_SN, queue);
      PrintFront(lower);
      DrainedAs(before, lower, Value());
    }

    method QueueInst(inst: Inst)
      requires Filling()
      modifies this
      ensures Filling() && arrived == old(arrived) + [inst]
    {
      RunSnoc(arrived, inst);
      arrived := arrived + [inst];
      queue := queue + [inst];
      if |queue| > MAX_THRESHOLD {
        PrintInsts(MIN_THRESHOLD);
      }
    }
  }
}
