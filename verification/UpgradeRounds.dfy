/**
 The checkpoint upgrader: the rounds in which pending migrations are applied. A migration is
 ready when the tags it depends on are present; each round applies every ready migration, in any
 order, and the run gives up when none is ready.
 */
module UpgradeRounds {
  import opened Seqs

  type Tag = string

  /** A migration script: an upgrader adds its tag, a downgrader removes it. */
  datatype Upgrader = Upgrader(depends: seq<Tag>, upgrades: bool)

  type Registry = map<Tag, Upgrader>

  datatype State = State(tags: set<Tag>, pending: set<Tag>)

  /* ---- one round ---- */

  function TagSet(reg: Registry): (r: set<Tag>) { set t | t in reg && reg[t].upgrades }

  function UntagSet(reg: Registry): (r: set<Tag>) { set t | t in reg && !reg[t].upgrades }

  function Pending(reg: Registry, tags: set<Tag>): (r: set<Tag>)
  {
    (TagSet(reg) - tags) + (UntagSet(reg) * tags)
  }

  predicate Ready(reg: Registry, t: Tag, tags: set<Tag>) {
    t in reg && forall d :: d in reg[t].depends ==> d in tags
  }

  function ReadySet(reg: Registry, s: State): (r: set<Tag>)
  {
    set t | t in s.pending && Ready(reg, t, s.tags)
  }

  /** The tags after the migrations `ts` have been applied. */
  function Applied(reg: Registry, tags: set<Tag>, ts: set<Tag>): (r: set<Tag>)
  {
    (tags + ts * TagSet(reg)) - ts * UntagSet(reg)
  }

  function Round(reg: Registry, s: State): (r: State)
  {
    State(Applied(reg, s.tags, ReadySet(reg, s)), s.pending - ReadySet(reg, s))
  }

  function Rounds(reg: Registry, s: State, k: nat): (r: State)
  {
    if k == 0 then s else Round(reg, Rounds(reg, s, k - 1))
  }

  function Begin(reg: Registry, tags: set<Tag>): (s: State)
  {
    State(tags, Pending(reg, tags))
  }

  /** The run ends with nothing pending. */
  ghost predicate Succeeds(reg: Registry, tags: set<Tag>) {
    exists k :: Rounds(reg, Begin(reg, tags), k).pending == {}
  }

  /* ---- what every round keeps ---- */

  /** The state is that of `tags` with the migrations that are no longer pending applied. */
  ghost predicate OnTrack(reg: Registry, tags: set<Tag>, s: State) {
    && s.pending <= Pending(reg, tags)
    && s.tags == Applied(reg, tags, Pending(reg, tags) - s.pending)
  }

  lemma RoundOnTrack(reg: Registry, tags: set<Tag>, s: State)
    requires OnTrack(reg, tags, s)
    ensures OnTrack(reg, tags, Round(reg, s))
  {
    var all, ready := Pending(reg, tags), ReadySet(reg, s);
    assert all - (s.pending - ready) == (all - s.pending) + ready;
  }

  lemma {:induction false} RoundsOnTrack(reg: Registry, tags: set<Tag>, k: nat)
    ensures OnTrack(reg, tags, Rounds(reg, Begin(reg, tags), k))
  {
    var s := Begin(reg, tags);
    if k == 0 {
      assert Pending(reg, tags) - s.pending == {};
    } else {
      RoundsOnTrack(reg, tags, k - 1);
      RoundOnTrack(reg, tags, Rounds(reg, s, k - 1));
    }
  }

  /** A migration is pending at the start if its tag is still to be added or to be removed. A round
      applies a pending migration exactly when everything it depends on is there; that adds its tag or
      removes it, and no other tag changes. */
  lemma RoundExact(reg: Registry, tags: set<Tag>, k: nat, t: Tag)
    ensures var s, s' := Rounds(reg, Begin(reg, tags), k), Rounds(reg, Begin(reg, tags), k + 1);
            && (t in Rounds(reg, Begin(reg, tags), 0).pending <==> t in reg && (reg[t].upgrades <==> t !in tags))
            && (t in s.pending ==> t in reg)
            && (t in s'.pending <==> t in s.pending && exists d :: d in reg[t].depends && d !in s.tags)
            && (t in s'.tags <==> if t in s.pending && t !in s'.pending then reg[t].upgrades else t in s.tags)
  {
    RoundsOnTrack(reg, tags, k);
  }

  lemma {:induction false} PendingShrinks(reg: Registry, s: State, j: nat, k: nat)
    requires j <= k
    ensures Rounds(reg, s, k).pending <= Rounds(reg, s, j).pending
  {
    if j == k {
    } else {
      PendingShrinks(reg, s, j, k - 1);
    }
  }

  /** Once no migration is ready, nothing changes any more. */
  lemma {:induction false} StuckStays(reg: Registry, s: State, k: nat, n: nat)
    requires ReadySet(reg, Rounds(reg, s, k)) == {} && k <= n
    ensures Rounds(reg, s, n) == Rounds(reg, s, k)
  {
    if k == n {
    } else {
      StuckStays(reg, s, k, n - 1);
    }
  }

  /* ---- the outcome of a successful run ---- */

  /** A successful run ends with the initial tags, plus every upgrader's tag, minus every
      downgrader's tag; running the upgrader again then finds nothing to do. */
  lemma FinalTags(reg: Registry, tags: set<Tag>, k: nat)
    requires Rounds(reg, Begin(reg, tags), k).pending == {}
    ensures var r := Rounds(reg, Begin(reg, tags), k).tags;
            r == (tags + TagSet(reg)) - UntagSet(reg) && Pending(reg, r) == {}
  {
    RoundsOnTrack(reg, tags, k);
    var all := Pending(reg, tags);
    assert all - {} == all;
    assert TagSet(reg) !! UntagSet(reg);
  }

  /** Each pending migration is applied in exactly one round of a successful run. */
  lemma {:induction false} AppliedInOneRound(reg: Registry, s: State, k: nat, t: Tag) returns (j: nat)
    requires t in s.pending && t !in Rounds(reg, s, k).pending
    ensures j < k && t in ReadySet(reg, Rounds(reg, s, j))
    ensures forall i: nat :: t in ReadySet(reg, Rounds(reg, s, i)) <==> i == j
  {
    j := k - 1;
    if t !in Rounds(reg, s, k - 1).pending {
      j := AppliedInOneRound(reg, s, k - 1, t);
    } else {
      forall i: nat ensures t in ReadySet(reg, Rounds(reg, s, i)) <==> i == j {
        if i < j {
          PendingShrinks(reg, s, i + 1, j);
        } else if i > j {
          PendingShrinks(reg, s, k, i);
        }
      }
    }
  }

  /** What a migration depends on was there from the start or was added in an earlier round, and
      has not been removed in an earlier round. */
  lemma DependenciesHold(reg: Registry, tags: set<Tag>, k: nat, t: Tag, d: Tag)
    requires t in ReadySet(reg, Rounds(reg, Begin(reg, tags), k)) && d in reg[t].depends
    ensures d in tags ||
            (d in TagSet(reg) && exists j: nat :: j < k && d in ReadySet(reg, Rounds(reg, Begin(reg, tags), j)))
    ensures forall j: nat :: j < k && d in UntagSet(reg) ==> d !in ReadySet(reg, Rounds(reg, Begin(reg, tags), j))
  {
    var s0 := Begin(reg, tags);
    var s := Rounds(reg, s0, k);
    RoundsOnTrack(reg, tags, k);
    assert d in s.tags;
    if d !in tags {
      var j := AppliedInOneRound(reg, s0, k, d);
    }
    forall j: nat | j < k && d in UntagSet(reg) ensures d !in ReadySet(reg, Rounds(reg, s0, j)) {
      if d in ReadySet(reg, Rounds(reg, s0, j)) {
        PendingShrinks(reg, s0, j + 1, k);
        PendingShrinks(reg, s0, 0, j);
        assert false;
      }
    }
  }

  /* ---- the run without removals ---- */

  /** The tags that the run is to remove. */
  function Doomed(reg: Registry, tags: set<Tag>): (r: set<Tag>) { UntagSet(reg) * tags }

  /** A round that adds tags but removes none. */
  function FreeRound(reg: Registry, s: State): (r: State)
  {
    State(s.tags + ReadySet(reg, s) * TagSet(reg), s.pending - ReadySet(reg, s))
  }

  function FreeRounds(reg: Registry, s: State, k: nat): (r: State)
  {
    if k == 0 then s else FreeRound(reg, FreeRounds(reg, s, k - 1))
  }

  ghost predicate FreelySucceeds(reg: Registry, tags: set<Tag>) {
    exists k :: FreeRounds(reg, Begin(reg, tags), k).pending == {}
  }

  ghost predicate FreelyOnTrack(reg: Registry, tags: set<Tag>, s: State) {
    && s.pending <= Pending(reg, tags)
    && s.tags == tags + (Pending(reg, tags) - s.pending) * TagSet(reg)
  }

  lemma {:induction false} FreeRoundsOnTrack(reg: Registry, tags: set<Tag>, k: nat)
    ensures FreelyOnTrack(reg, tags, FreeRounds(reg, Begin(reg, tags), k))
  {
    var all := Pending(reg, tags);
    if k == 0 {
      assert all - all == {};
    } else {
      FreeRoundsOnTrack(reg, tags, k - 1);
      var s := FreeRounds(reg, Begin(reg, tags), k - 1);
      assert all - (s.pending - ReadySet(reg, s)) == (all - s.pending) + ReadySet(reg, s);
    }
  }

  lemma {:induction false} FreePendingShrinks(reg: Registry, s: State, j: nat, k: nat)
    requires j <= k
    ensures FreeRounds(reg, s, k).pending <= FreeRounds(reg, s, j).pending
  {
    if j == k {
    } else {
      FreePendingShrinks(reg, s, j, k - 1);
    }
  }

  lemma FreeRoundIsStuckOrDone(reg: Registry, s: State) returns (k: nat)
    ensures ReadySet(reg, FreeRounds(reg, s, k)) == {}
  {
    k := 0;
    while ReadySet(reg, FreeRounds(reg, s, k)) != {}
      decreases |FreeRounds(reg, s, k).pending|
    {
      var a, b := FreeRounds(reg, s, k).pending, FreeRounds(reg, s, k + 1).pending;
      assert b == a - ReadySet(reg, FreeRounds(reg, s, k));
      SubsetSize(b, a);
      k := k + 1;
    }
  }

  /* ---- exactly when the run succeeds ---- */

  /** Every doomed tag that a pending migration depends on is still there. */
  ghost predicate Served(reg: Registry, tags: set<Tag>, pending: set<Tag>) {
    forall t, d :: t in pending && t in reg && d in reg[t].depends && d in Doomed(reg, tags) ==> d in pending
  }

  /** Without removals, no doomed tag would have its turn before a migration that depends on it. */
  ghost predicate ServedInTime(reg: Registry, tags: set<Tag>) {
    forall k: nat :: Served(reg, tags, FreeRounds(reg, Begin(reg, tags), k).pending)
  }

  /** While pending migrations are served, removing tags makes no difference. */
  lemma SameReady(reg: Registry, tags: set<Tag>, s: State, f: State)
    requires OnTrack(reg, tags, s) && FreelyOnTrack(reg, tags, f)
    requires s.pending == f.pending && Served(reg, tags, s.pending)
    ensures ReadySet(reg, s) == ReadySet(reg, f)
  {
    forall t | t in s.pending && t in reg ensures Ready(reg, t, s.tags) <==> Ready(reg, t, f.tags) {
      forall d | d in reg[t].depends ensures d in s.tags <==> d in f.tags {
        assert d in Doomed(reg, tags) ==> d in s.pending;
      }
    }
  }

  lemma {:induction false} FollowsFree(reg: Registry, tags: set<Tag>, k: nat)
    requires forall j: nat :: j < k ==>
               || Served(reg, tags, Rounds(reg, Begin(reg, tags), j).pending)
               || Served(reg, tags, FreeRounds(reg, Begin(reg, tags), j).pending)
    ensures Rounds(reg, Begin(reg, tags), k).pending == FreeRounds(reg, Begin(reg, tags), k).pending
  {
    var s := Begin(reg, tags);
    if k == 0 {
    } else {
      FollowsFree(reg, tags, k - 1);
      RoundsOnTrack(reg, tags, k - 1);
      FreeRoundsOnTrack(reg, tags, k - 1);
      SameReady(reg, tags, Rounds(reg, s, k - 1), FreeRounds(reg, s, k - 1));
    }
  }

  /** A migration that depends on a tag that has been removed is never applied. */
  lemma {:induction false} NeverReady(reg: Registry, tags: set<Tag>, k: nat, n: nat, t: Tag, d: Tag)
    requires k <= n && t in Rounds(reg, Begin(reg, tags), k).pending && t in reg && d in reg[t].depends
    requires d in Doomed(reg, tags) && d !in Rounds(reg, Begin(reg, tags), k).pending
    ensures t in Rounds(reg, Begin(reg, tags), n).pending
  {
    if n == k {
    } else {
      NeverReady(reg, tags, k, n - 1, t, d);
      PendingShrinks(reg, Begin(reg, tags), k, n - 1);
      RoundsOnTrack(reg, tags, n - 1);
      assert d !in Rounds(reg, Begin(reg, tags), n - 1).tags;
    }
  }

  lemma SuccessServes(reg: Registry, tags: set<Tag>, n: nat, k: nat)
    requires Rounds(reg, Begin(reg, tags), n).pending == {}
    ensures Served(reg, tags, Rounds(reg, Begin(reg, tags), k).pending)
  {
    var pending := Rounds(reg, Begin(reg, tags), k).pending;
    if k > n {
      PendingShrinks(reg, Begin(reg, tags), n, k);
    } else {
      forall t, d | t in pending && t in reg && d in reg[t].depends && d in Doomed(reg, tags) ensures d in pending {
        if d !in pending { NeverReady(reg, tags, k, n, t, d); }
      }
    }
  }

  lemma SuccessFollowsFree(reg: Registry, tags: set<Tag>, k: nat)
    requires Succeeds(reg, tags)
    ensures Rounds(reg, Begin(reg, tags), k).pending == FreeRounds(reg, Begin(reg, tags), k).pending
    ensures Served(reg, tags, FreeRounds(reg, Begin(reg, tags), k).pending)
  {
    var n :| Rounds(reg, Begin(reg, tags), n).pending == {};
    forall j: nat ensures Served(reg, tags, Rounds(reg, Begin(reg, tags), j).pending) {
      SuccessServes(reg, tags, n, j);
    }
    FollowsFree(reg, tags, k);
  }

  /** For every registry and checkpoint, the run succeeds if and only if it would without removals
      and, there, every doomed tag outlasts the migrations that depend on it. */
  lemma SucceedsIffFreely(reg: Registry, tags: set<Tag>)
    ensures Succeeds(reg, tags) <==> FreelySucceeds(reg, tags) && ServedInTime(reg, tags)
  {
    var s := Begin(reg, tags);
    if Succeeds(reg, tags) {
      forall k: nat { SuccessFollowsFree(reg, tags, k); }
      var n :| Rounds(reg, s, n).pending == {};
      assert FreeRounds(reg, s, n).pending == {};
    }
    if FreelySucceeds(reg, tags) && ServedInTime(reg, tags) {
      var n :| FreeRounds(reg, s, n).pending == {};
      FollowsFree(reg, tags, n);
    }
  }

  /* ---- orders ---- */

  /** Every migration of `order` finds its dependencies among the tags when its turn comes. */
  ghost predicate FindsAll(reg: Registry, tags: set<Tag>, order: seq<Tag>) {
    forall i :: 0 <= i < |order| ==> Ready(reg, order[i], Applied(reg, tags, ToSet(order[..i])))
  }

  /** An order of the pending migrations in which each finds its dependencies present. */
  ghost predicate ValidOrder(reg: Registry, tags: set<Tag>, order: seq<Tag>) {
    ToSet(order) == Pending(reg, tags) && FindsAll(reg, tags, order)
  }

  ghost predicate Orderable(reg: Registry, tags: set<Tag>) {
    exists order :: ValidOrder(reg, tags, order)
  }

  ghost predicate FindsAllFreely(reg: Registry, tags: set<Tag>, order: seq<Tag>) {
    forall i :: 0 <= i < |order| ==> Ready(reg, order[i], tags + ToSet(order[..i]) * TagSet(reg))
  }

  /** An order that respects the dependencies if removals are not counted. */
  ghost predicate FreeOrder(reg: Registry, tags: set<Tag>, order: seq<Tag>) {
    ToSet(order) == Pending(reg, tags) && FindsAllFreely(reg, tags, order)
  }

  lemma FirstPending(order: seq<Tag>, pending: set<Tag>) returns (i: nat)
    requires pending != {} && pending <= ToSet(order)
    ensures i < |order| && order[i] in pending
    ensures forall j :: 0 <= j < i ==> order[j] !in pending
  {
    var t :| t in pending;
    var n :| 0 <= n < |order| && order[n] == t;
    i := 0;
    while order[i] !in pending
      invariant i <= n
      invariant forall j :: 0 <= j < i ==> order[j] !in pending
      decreases n - i
    {
      i := i + 1;
    }
  }

  /** The first migration of an order that is still pending is ready. */
  lemma StillReady(reg: Registry, tags: set<Tag>, s: State, order: seq<Tag>)
    requires FreelyOnTrack(reg, tags, s) && s.pending != {} && FreeOrder(reg, tags, order)
    ensures ReadySet(reg, s) != {}
  {
    var i := FirstPending(order, s.pending);
    var t := order[i];
    assert Ready(reg, t, tags + ToSet(order[..i]) * TagSet(reg));
    forall d | d in reg[t].depends ensures d in s.tags {
      if d !in tags {
        var j :| 0 <= j < i && order[..i][j] == d;
        assert order[j] in ToSet(order);
      }
    }
    assert t in ReadySet(reg, s);
  }

  lemma FreelyConcat(reg: Registry, tags: set<Tag>, a: seq<Tag>, b: seq<Tag>)
    requires FindsAllFreely(reg, tags, a)
    requires forall t :: t in b ==> Ready(reg, t, tags + ToSet(a) * TagSet(reg))
    ensures FindsAllFreely(reg, tags, a + b)
  {
    var c := a + b;
    forall i | 0 <= i < |c| ensures Ready(reg, c[i], tags + ToSet(c[..i]) * TagSet(reg)) {
      if i < |a| {
        assert c[..i] == a[..i];
      } else {
        assert c[i] in b && c[..i] == a + b[..i - |a|];
        ToSetConcat(a, b[..i - |a|]);
      }
    }
  }

  /** The migrations of the first rounds without removals, in such an order. */
  lemma {:induction false} FreeLog(reg: Registry, tags: set<Tag>, k: nat) returns (order: seq<Tag>)
    ensures ToSet(order) == Pending(reg, tags) - FreeRounds(reg, Begin(reg, tags), k).pending
    ensures FindsAllFreely(reg, tags, order)
  {
    if k == 0 {
      order := [];
    } else {
      var a := FreeLog(reg, tags, k - 1);
      var s := FreeRounds(reg, Begin(reg, tags), k - 1);
      FreeRoundsOnTrack(reg, tags, k - 1);
      var b := SomeEnumeration(ReadySet(reg, s));
      assert forall t :: t in b ==> t in ToSet(b);
      FreelyConcat(reg, tags, a, b);
      ToSetConcat(a, b);
      SetStep(Pending(reg, tags), s.pending, ReadySet(reg, s));
      order := a + b;
    }
  }

  /** Without removals the run succeeds if and only if some order respects the dependencies. */
  lemma FreelySucceedsIff(reg: Registry, tags: set<Tag>)
    ensures FreelySucceeds(reg, tags) <==> exists order :: FreeOrder(reg, tags, order)
  {
    var s := Begin(reg, tags);
    if order :| FreeOrder(reg, tags, order) {
      var k := FreeRoundIsStuckOrDone(reg, s);
      FreeRoundsOnTrack(reg, tags, k);
      if FreeRounds(reg, s, k).pending != {} {
        StillReady(reg, tags, FreeRounds(reg, s, k), order);
        assert false;
      }
    }
    if k :| FreeRounds(reg, s, k).pending == {} {
      var order := FreeLog(reg, tags, k);
      assert FreeOrder(reg, tags, order);
    }
  }

  /* ---- the log of a run ---- */

  /** `parts` are the migrations of the first rounds, each round in some order. */
  ghost predicate InRounds(reg: Registry, s: State, parts: seq<seq<Tag>>) {
    forall i :: 0 <= i < |parts| ==> Enumerates(parts[i], ReadySet(reg, Rounds(reg, s, i)))
  }

  function Flatten(parts: seq<seq<Tag>>): (r: seq<Tag>)
  {
    if parts == [] then [] else Flatten(parts[..|parts| - 1]) + parts[|parts| - 1]
  }

  lemma SetStep(all: set<Tag>, pending: set<Tag>, ready: set<Tag>)
    requires ready <= pending <= all
    ensures (all - pending) + ready == all - (pending - ready)
    ensures (all - pending) !! ready
  {
  }

  /** A log of the first rounds holds exactly the migrations no longer pending, once each. */
  lemma {:induction false} LogExact(reg: Registry, tags: set<Tag>, parts: seq<seq<Tag>>)
    requires InRounds(reg, Begin(reg, tags), parts)
    ensures ToSet(Flatten(parts)) == Pending(reg, tags) - Rounds(reg, Begin(reg, tags), |parts|).pending
    ensures Distinct(Flatten(parts))
  {
    if parts == [] {
      assert ToSet(Flatten(parts)) == {};
    } else {
      var n := |parts| - 1;
      var s := Rounds(reg, Begin(reg, tags), n);
      LogExact(reg, tags, parts[..n]);
      RoundsOnTrack(reg, tags, n);
      assert Enumerates(parts[n], ReadySet(reg, s));
      ToSetConcat(Flatten(parts[..n]), parts[n]);
      SetStep(Pending(reg, tags), s.pending, ReadySet(reg, s));
      DistinctConcat(Flatten(parts[..n]), parts[n]);
    }
  }

  /** No migration depends on a tag that an earlier one of the same round removes. */
  ghost predicate Unhurt(reg: Registry, part: seq<Tag>) {
    forall i, j :: 0 <= i < j < |part| && part[j] in reg && part[i] in UntagSet(reg) ==>
                     part[i] !in reg[part[j]].depends
  }

  /** A migration that was ready stays ready unless one of those applied since removes a tag it
      depends on. */
  lemma ReadyAfter(reg: Registry, tags: set<Tag>, before: set<Tag>, since: set<Tag>, t: Tag)
    requires Ready(reg, t, Applied(reg, tags, before))
    ensures Ready(reg, t, Applied(reg, tags, before + since)) <==>
            forall d :: d in since && d in UntagSet(reg) ==> d !in reg[t].depends
  {
  }

  /** Whether the migrations `part`, all ready after `before`, find their dependencies in turn. */
  ghost predicate FindsNext(reg: Registry, tags: set<Tag>, before: seq<Tag>, part: seq<Tag>) {
    forall m :: 0 <= m < |part| ==> Ready(reg, part[m], Applied(reg, tags, ToSet(before) + ToSet(part[..m])))
  }

  lemma PartFinds(reg: Registry, tags: set<Tag>, before: seq<Tag>, part: seq<Tag>)
    requires forall m :: 0 <= m < |part| ==> Ready(reg, part[m], Applied(reg, tags, ToSet(before)))
    ensures FindsNext(reg, tags, before, part) <==> Unhurt(reg, part)
  {
    forall m | 0 <= m < |part| { ReadyAfter(reg, tags, ToSet(before), ToSet(part[..m]), part[m]); }
    if FindsNext(reg, tags, before, part) {
      forall i, j | 0 <= i < j < |part| && part[i] in UntagSet(reg) ensures part[i] !in reg[part[j]].depends {
        assert Ready(reg, part[j], Applied(reg, tags, ToSet(before) + ToSet(part[..j])));
        assert part[..j][i] == part[i];
      }
    }
    if Unhurt(reg, part) {
      forall m | 0 <= m < |part|
        ensures Ready(reg, part[m], Applied(reg, tags, ToSet(before) + ToSet(part[..m])))
      {
        forall d | d in ToSet(part[..m]) && d in UntagSet(reg) ensures d !in reg[part[m]].depends {
          var i :| 0 <= i < m && part[..m][i] == d;
          assert part[i] == d;
        }
      }
    }
  }

  lemma FindsConcat(reg: Registry, tags: set<Tag>, a: seq<Tag>, b: seq<Tag>)
    ensures FindsAll(reg, tags, a + b) <==> FindsAll(reg, tags, a) && FindsNext(reg, tags, a, b)
  {
    var c := a + b;
    forall m | 0 <= m < |b| ensures c[|a| + m] == b[m] && ToSet(c[..|a| + m]) == ToSet(a) + ToSet(b[..m]) {
      assert c[..|a| + m] == a + b[..m];
      ToSetConcat(a, b[..m]);
    }
    assert forall i :: 0 <= i < |a| ==> c[i] == a[i] && c[..i] == a[..i];
    if FindsAll(reg, tags, c) {
      forall i | 0 <= i < |a| ensures Ready(reg, a[i], Applied(reg, tags, ToSet(a[..i]))) {
        assert Ready(reg, c[i], Applied(reg, tags, ToSet(c[..i])));
      }
      forall m | 0 <= m < |b| ensures Ready(reg, b[m], Applied(reg, tags, ToSet(a) + ToSet(b[..m]))) {
        assert Ready(reg, c[|a| + m], Applied(reg, tags, ToSet(c[..|a| + m])));
      }
    }
    if FindsAll(reg, tags, a) && FindsNext(reg, tags, a, b) {
      forall i | 0 <= i < |c| ensures Ready(reg, c[i], Applied(reg, tags, ToSet(c[..i]))) {
        if i >= |a| {
          assert Ready(reg, b[i - |a|], Applied(reg, tags, ToSet(a) + ToSet(b[..i - |a|])));
        }
      }
    }
  }

  ghost predicate AllUnhurt(reg: Registry, parts: seq<seq<Tag>>) {
    forall n :: 0 <= n < |parts| ==> Unhurt(reg, parts[n])
  }

  lemma AllUnhurtLast(reg: Registry, parts: seq<seq<Tag>>)
    requires parts != []
    ensures var n := |parts| - 1;
            AllUnhurt(reg, parts) <==> AllUnhurt(reg, parts[..n]) && Unhurt(reg, parts[n])
  {
    var n := |parts| - 1;
    assert forall m :: 0 <= m < n ==> parts[..n][m] == parts[m];
    if AllUnhurt(reg, parts[..n]) && Unhurt(reg, parts[n]) {
      forall m | 0 <= m < |parts| ensures Unhurt(reg, parts[m]) {
        if m < n { assert Unhurt(reg, parts[..n][m]); }
      }
    }
  }

  /** In a log of the first rounds every migration finds its dependencies if and only if none
      depends on a tag that an earlier one of the same round removes. */
  lemma {:induction false} LogFindsDependencies(reg: Registry, tags: set<Tag>, parts: seq<seq<Tag>>)
    requires InRounds(reg, Begin(reg, tags), parts)
    ensures FindsAll(reg, tags, Flatten(parts)) <==> AllUnhurt(reg, parts)
  {
    if parts == [] {
    } else {
      var n := |parts| - 1;
      var early, last := Flatten(parts[..n]), parts[n];
      LogFindsDependencies(reg, tags, parts[..n]);
      FindsConcat(reg, tags, early, last);
      LastFinds(reg, tags, parts);
      AllUnhurtLast(reg, parts);
    }
  }

  lemma LastFinds(reg: Registry, tags: set<Tag>, parts: seq<seq<Tag>>)
    requires parts != [] && InRounds(reg, Begin(reg, tags), parts)
    ensures var n := |parts| - 1;
            FindsNext(reg, tags, Flatten(parts[..n]), parts[n]) <==> Unhurt(reg, parts[n])
  {
    var n := |parts| - 1;
    var early, last := Flatten(parts[..n]), parts[n];
    LogExact(reg, tags, parts[..n]);
    RoundsOnTrack(reg, tags, n);
    var s := Rounds(reg, Begin(reg, tags), n);
    assert Enumerates(last, ReadySet(reg, s));
    forall m | 0 <= m < |last| ensures Ready(reg, last[m], Applied(reg, tags, ToSet(early))) {
      assert last[m] in ToSet(last);
    }
    PartFinds(reg, tags, early, last);
  }

  /** No migration of a round depends on a tag that another one of the round removes. */
  ghost predicate Harmless(reg: Registry, ready: set<Tag>) {
    forall t, d :: t in ready && d in ready && t != d && t in reg && d in UntagSet(reg) ==> d !in reg[t].depends
  }

  lemma HarmlessIff(reg: Registry, ready: set<Tag>)
    ensures Harmless(reg, ready) <==> forall part :: Enumerates(part, ready) ==> Unhurt(reg, part)
  {
    if Harmless(reg, ready) {
      forall part | Enumerates(part, ready) ensures Unhurt(reg, part) {
        assert forall i :: 0 <= i < |part| ==> part[i] in ToSet(part);
      }
    } else {
      var t, d :| t in ready && d in ready && t != d && t in reg && d in UntagSet(reg) && d in reg[t].depends;
      var rest := SomeEnumeration(ready - {d, t});
      var part := [d, t] + rest;
      assert ToSet([d, t]) == {d, t};
      ToSetConcat([d, t], rest);
      DistinctConcat([d, t], rest);
      assert part[0] == d && part[1] == t;
      assert Enumerates(part, ready) && !Unhurt(reg, part);
    }
  }

  lemma SomeParts(reg: Registry, s: State, k: nat) returns (parts: seq<seq<Tag>>)
    ensures |parts| == k && InRounds(reg, s, parts)
  {
    parts := [];
    while |parts| < k
      invariant |parts| <= k && InRounds(reg, s, parts)
    {
      var part := SomeEnumeration(ReadySet(reg, Rounds(reg, s, |parts|)));
      parts := parts + [part];
    }
  }

  /** Whatever the order inside the first `n` rounds, every migration finds its dependencies, if
      and only if none depends on a tag that another one of its round removes. */
  lemma EveryLogFindsDependencies(reg: Registry, tags: set<Tag>, n: nat)
    ensures (forall parts :: |parts| == n && InRounds(reg, Begin(reg, tags), parts) ==>
               FindsAll(reg, tags, Flatten(parts)))
            <==> forall k: nat :: k < n ==> Harmless(reg, ReadySet(reg, Rounds(reg, Begin(reg, tags), k)))
  {
    if forall k: nat :: k < n ==> Harmless(reg, ReadySet(reg, Rounds(reg, Begin(reg, tags), k))) {
      forall parts | |parts| == n && InRounds(reg, Begin(reg, tags), parts)
        ensures FindsAll(reg, tags, Flatten(parts))
      {
        HarmlessLog(reg, tags, parts);
      }
    }
    if k: nat :| k < n && !Harmless(reg, ReadySet(reg, Rounds(reg, Begin(reg, tags), k))) {
      var parts := HurtLog(reg, tags, n, k);
    }
  }

  lemma HarmlessLog(reg: Registry, tags: set<Tag>, parts: seq<seq<Tag>>)
    requires InRounds(reg, Begin(reg, tags), parts)
    requires forall k: nat :: k < |parts| ==> Harmless(reg, ReadySet(reg, Rounds(reg, Begin(reg, tags), k)))
    ensures FindsAll(reg, tags, Flatten(parts))
  {
    forall n | 0 <= n < |parts| ensures Unhurt(reg, parts[n]) {
      HarmlessIff(reg, ReadySet(reg, Rounds(reg, Begin(reg, tags), n)));
    }
    LogFindsDependencies(reg, tags, parts);
  }

  lemma HurtLog(reg: Registry, tags: set<Tag>, n: nat, k: nat) returns (parts: seq<seq<Tag>>)
    requires k < n && !Harmless(reg, ReadySet(reg, Rounds(reg, Begin(reg, tags), k)))
    ensures |parts| == n && InRounds(reg, Begin(reg, tags), parts) && !FindsAll(reg, tags, Flatten(parts))
  {
    var ready := ReadySet(reg, Rounds(reg, Begin(reg, tags), k));
    HarmlessIff(reg, ready);
    var part :| Enumerates(part, ready) && !Unhurt(reg, part);
    parts := SomeParts(reg, Begin(reg, tags), n);
    parts := parts[k := part];
    assert !Unhurt(reg, parts[k]);
    LogFindsDependencies(reg, tags, parts);
  }

  /* ---- runs and orders ---- */

  /** Each round can be ordered so that no migration depends on a tag removed before its turn. */
  ghost predicate RoundsOrderable(reg: Registry, tags: set<Tag>) {
    forall k: nat :: RoundOrderable(reg, ReadySet(reg, Rounds(reg, Begin(reg, tags), k)))
  }

  ghost predicate RoundOrderable(reg: Registry, ready: set<Tag>) {
    exists part :: Enumerates(part, ready) && Unhurt(reg, part)
  }

  /** The migrations of `order` that are in `some`, where they come first. */
  function Restrict(order: seq<Tag>, some: set<Tag>): (r: seq<Tag>)
  {
    if order == [] then []
    else
      var r, t := Restrict(order[..|order| - 1], some), order[|order| - 1];
      if t in some && t !in r then r + [t] else r
  }

  lemma {:induction false} RestrictEnumerates(order: seq<Tag>, some: set<Tag>)
    ensures Enumerates(Restrict(order, some), some * ToSet(order))
  {
    if order == [] {
      assert ToSet(Restrict(order, some)) == {};
    } else {
      var a, t := order[..|order| - 1], order[|order| - 1];
      RestrictEnumerates(a, some);
      assert order == a + [t] && ToSet([t]) == {t};
      ToSetConcat(a, [t]);
      ToSetConcat(Restrict(a, some), [t]);
    }
  }

  lemma {:induction false} RestrictUnhurt(reg: Registry, tags: set<Tag>, order: seq<Tag>, some: set<Tag>)
    requires FindsAll(reg, tags, order)
    ensures Unhurt(reg, Restrict(order, some))
  {
    if order == [] {
    } else {
      var a, t := order[..|order| - 1], order[|order| - 1];
      assert FindsAll(reg, tags, a) by {
        assert order == a + [t];
        FindsConcat(reg, tags, a, [t]);
      }
      RestrictUnhurt(reg, tags, a, some);
      RestrictEnumerates(a, some);
      assert Ready(reg, t, Applied(reg, tags, ToSet(a)));
      UnhurtNext(reg, tags, Restrict(a, some), ToSet(a), t);
    }
  }

  lemma UnhurtNext(reg: Registry, tags: set<Tag>, r: seq<Tag>, before: set<Tag>, t: Tag)
    requires Unhurt(reg, r) && ToSet(r) <= before && Ready(reg, t, Applied(reg, tags, before))
    ensures Unhurt(reg, r + [t])
  {
    forall i | 0 <= i < |r| && r[i] in UntagSet(reg) ensures r[i] !in reg[t].depends {
      assert r[i] in ToSet(r);
    }
  }

  lemma OrderableRounds(reg: Registry, tags: set<Tag>)
    requires Orderable(reg, tags)
    ensures RoundsOrderable(reg, tags)
  {
    var order :| ValidOrder(reg, tags, order);
    forall k: nat ensures RoundOrderable(reg, ReadySet(reg, Rounds(reg, Begin(reg, tags), k))) {
      var ready := ReadySet(reg, Rounds(reg, Begin(reg, tags), k));
      RoundsOnTrack(reg, tags, k);
      RestrictEnumerates(order, ready);
      RestrictUnhurt(reg, tags, order, ready);
      assert ready * ToSet(order) == ready;
    }
  }

  lemma SomeUnhurtParts(reg: Registry, tags: set<Tag>, k: nat) returns (parts: seq<seq<Tag>>)
    requires RoundsOrderable(reg, tags)
    ensures |parts| == k && InRounds(reg, Begin(reg, tags), parts)
    ensures AllUnhurt(reg, parts)
  {
    parts := [];
    while |parts| < k
      invariant |parts| <= k && InRounds(reg, Begin(reg, tags), parts)
      invariant AllUnhurt(reg, parts)
    {
      var ready := ReadySet(reg, Rounds(reg, Begin(reg, tags), |parts|));
      assert RoundOrderable(reg, ready);
      var part :| Enumerates(part, ready) && Unhurt(reg, part);
      parts := parts + [part];
    }
  }

  lemma RoundsGiveOrder(reg: Registry, tags: set<Tag>)
    requires Succeeds(reg, tags) && RoundsOrderable(reg, tags)
    ensures Orderable(reg, tags)
  {
    var k :| Rounds(reg, Begin(reg, tags), k).pending == {};
    var parts := SomeUnhurtParts(reg, tags, k);
    LogExact(reg, tags, parts);
    LogFindsDependencies(reg, tags, parts);
    assert ValidOrder(reg, tags, Flatten(parts));
  }

  lemma OrderableFreely(reg: Registry, tags: set<Tag>)
    requires Orderable(reg, tags)
    ensures FreelySucceeds(reg, tags)
  {
    var order :| ValidOrder(reg, tags, order);
    forall i | 0 <= i < |order| ensures Ready(reg, order[i], tags + ToSet(order[..i]) * TagSet(reg)) {
      assert Ready(reg, order[i], Applied(reg, tags, ToSet(order[..i])));
    }
    assert FreeOrder(reg, tags, order);
    FreelySucceedsIff(reg, tags);
  }

  /** No pending migration depends on a tag that is about to be removed. */
  ghost predicate NoDoomedDependency(reg: Registry, tags: set<Tag>) {
    forall t, d :: t in Pending(reg, tags) && d in reg[t].depends ==> d !in Doomed(reg, tags)
  }

  lemma NoDoomedIsSafe(reg: Registry, tags: set<Tag>)
    requires NoDoomedDependency(reg, tags)
    ensures ServedInTime(reg, tags) && RoundsOrderable(reg, tags)
  {
    forall k: nat ensures Served(reg, tags, FreeRounds(reg, Begin(reg, tags), k).pending) {
      FreeRoundsOnTrack(reg, tags, k);
    }
    forall k: nat ensures RoundOrderable(reg, ReadySet(reg, Rounds(reg, Begin(reg, tags), k))) {
      RoundsOnTrack(reg, tags, k);
      var ready := ReadySet(reg, Rounds(reg, Begin(reg, tags), k));
      forall t, d | t in ready && d in ready && d in UntagSet(reg) ensures d !in reg[t].depends {
        assert t in Pending(reg, tags) && d in Pending(reg, tags) && d !in TagSet(reg);
        assert d in Doomed(reg, tags);
      }
      HarmlessIff(reg, ready);
      var part := SomeEnumeration(ready);
    }
  }

  /** If some order of the pending migrations respects all dependencies, the run succeeds if and
      only if every doomed tag outlasts its users; if the run succeeds, such an order exists if and
      only if each round has one. Both hold when nothing pending depends on a doomed tag. */
  lemma SucceedsIffOrderable(reg: Registry, tags: set<Tag>)
    ensures Orderable(reg, tags) ==> (Succeeds(reg, tags) <==> ServedInTime(reg, tags))
    ensures Succeeds(reg, tags) ==> (Orderable(reg, tags) <==> RoundsOrderable(reg, tags))
    ensures NoDoomedDependency(reg, tags) ==> (Succeeds(reg, tags) <==> Orderable(reg, tags))
  {
    SucceedsIffFreely(reg, tags);
    if Orderable(reg, tags) {
      OrderableFreely(reg, tags);
      OrderableRounds(reg, tags);
    }
    if Succeeds(reg, tags) && RoundsOrderable(reg, tags) { RoundsGiveOrder(reg, tags); }
    if NoDoomedDependency(reg, tags) { NoDoomedIsSafe(reg, tags); }
  }

  /* ---- the rounds are as early as possible ---- */

  /** A schedule in which migrations grouped together run side by side. */
  ghost predicate ValidSchedule(reg: Registry, tags: set<Tag>, groups: seq<set<Tag>>) {
    && (forall t :: t in Pending(reg, tags) ==> exists k :: 0 <= k < |groups| && t in groups[k])
    && forall k, t, d :: 0 <= k < |groups| && t in groups[k] && t in reg && d in reg[t].depends ==>
         d in tags || (d in TagSet(reg) && exists j :: 0 <= j < k && d in groups[j])
  }

  lemma {:induction false} FreeRoundsAreEarliest(
      reg: Registry, tags: set<Tag>, groups: seq<set<Tag>>, k: nat, t: Tag)
    requires ValidSchedule(reg, tags, groups) && k < |groups| && t in groups[k]
    ensures t !in FreeRounds(reg, Begin(reg, tags), k + 1).pending
    decreases k
  {
    var s0 := Begin(reg, tags);
    var s := FreeRounds(reg, s0, k);
    FreeRoundsOnTrack(reg, tags, k);
    if t in s.pending {
      forall d | d in reg[t].depends ensures d in s.tags {
        if d !in tags {
          var j :| 0 <= j < k && d in groups[j];
          FreeRoundsAreEarliest(reg, tags, groups, j, d);
          AddedEarlier(reg, tags, j, k, d);
        }
      }
      assert t in ReadySet(reg, s);
    }
  }

  lemma AddedEarlier(reg: Registry, tags: set<Tag>, j: nat, k: nat, d: Tag)
    requires j < k && d !in tags && d in TagSet(reg)
    requires d !in FreeRounds(reg, Begin(reg, tags), j + 1).pending
    ensures d in FreeRounds(reg, Begin(reg, tags), k).tags
  {
    FreePendingShrinks(reg, Begin(reg, tags), j + 1, k);
    FreeRoundsOnTrack(reg, tags, k);
  }

  /** No schedule runs a migration earlier than a successful run does. */
  lemma RoundsAreEarliest(reg: Registry, tags: set<Tag>, groups: seq<set<Tag>>, k: nat, t: Tag)
    requires Succeeds(reg, tags) && ValidSchedule(reg, tags, groups) && k < |groups| && t in groups[k]
    ensures t !in Rounds(reg, Begin(reg, tags), k + 1).pending
  {
    FreeRoundsAreEarliest(reg, tags, groups, k, t);
    SuccessFollowsFree(reg, tags, k + 1);
  }

  /* ---- downgraders ---- */

  /** The header comment of the script: a dependency on a tag with a downgrader waits until that
      tag has been removed. */
  ghost predicate WaitsForRemoval(reg: Registry, tags: set<Tag>) {
    forall k: nat, t, d ::
      t in ReadySet(reg, Rounds(reg, Begin(reg, tags), k)) && d in reg[t].depends && d in UntagSet(reg) ==>
        d !in Rounds(reg, Begin(reg, tags), k).tags
  }

  /** A successful run keeps to that comment only when nothing that runs depends on a tag with a
      downgrader; every such dependency is served while the tag is still present. */
  lemma WaitsForRemovalIff(reg: Registry, tags: set<Tag>)
    requires Succeeds(reg, tags)
    ensures WaitsForRemoval(reg, tags) <==>
            forall t, d :: t in Pending(reg, tags) && d in reg[t].depends ==> d !in UntagSet(reg)
  {
    var s := Begin(reg, tags);
    if WaitsForRemoval(reg, tags) {
      forall t, d | t in Pending(reg, tags) && d in reg[t].depends ensures d !in UntagSet(reg) {
        var k :| Rounds(reg, s, k).pending == {};
        var j := AppliedInOneRound(reg, s, k, t);
        assert d in Rounds(reg, s, j).tags;
      }
    }
    if forall t, d :: t in Pending(reg, tags) && d in reg[t].depends ==> d !in UntagSet(reg) {
      forall k: nat ensures ReadySet(reg, Rounds(reg, s, k)) <= Pending(reg, tags) {
        PendingShrinks(reg, s, 0, k);
      }
    }
  }

  /** A successful run that breaks the comment: the upgrader `b` depends on the tag `d`, which is
      there and has a downgrader, and both are applied in the first round. */
  lemma RemovalNotWaitedFor(reg: Registry, tags: set<Tag>)
    requires reg == map["b" := Upgrader(["d"], true), "d" := Upgrader([], false)] && tags == {"d"}
    ensures Succeeds(reg, tags) && !WaitsForRemoval(reg, tags)
  {
    var s := Begin(reg, tags);
    assert TagSet(reg) == {"b"} && UntagSet(reg) == {"d"};
    assert s == State({"d"}, {"b", "d"}) && ReadySet(reg, s) == {"b", "d"};
    assert Rounds(reg, s, 0) == s && Rounds(reg, s, 1).pending == {};
    assert "b" in Pending(reg, tags) && "d" in reg["b"].depends;
    WaitsForRemovalIff(reg, tags);
  }

  /** With a dependency on a tag about to be removed the run may give up although an order exists:
      the first round removes the tag before the migration that needs it becomes ready. */
  lemma DoomedDependencyLosesOrder() returns (reg: Registry, tags: set<Tag>, order: seq<Tag>)
    ensures ValidOrder(reg, tags, order) && !Succeeds(reg, tags)
  {
    reg := map["a" := Upgrader([], true), "b" := Upgrader(["a", "d"], true), "d" := Upgrader([], false)];
    tags := {"d"};
    order := ["a", "b", "d"];
    assert TagSet(reg) == {"a", "b"} && UntagSet(reg) == {"d"};
    assert Pending(reg, tags) == {"a", "b", "d"};
    assert ToSet(order) == {"a", "b", "d"};
    assert ValidOrder(reg, tags, order) by {
      assert order[..0] == [] && order[..1] == ["a"] && order[..2] == ["a", "b"];
      assert reg["b"].depends == ["a", "d"];
    }
    var s := Begin(reg, tags);
    assert "d" in reg["b"].depends by { assert reg["b"].depends[1] == "d"; }
    assert ReadySet(reg, s) == {"a", "d"};
    assert Rounds(reg, s, 0) == s;
    assert Rounds(reg, s, 1) == Round(reg, s) == State({"a"}, {"b"});
    assert ReadySet(reg, Rounds(reg, s, 1)) == {};
    forall k: nat ensures Rounds(reg, s, k).pending != {} {
      if k >= 1 { StuckStays(reg, s, 1, k); }
    }
  }

  /** The run may also succeed although no order exists: two downgraders that depend on each other
      are ready together, and the second is applied when the tag it depends on is gone. */
  lemma MutualRemovalHasNoOrder() returns (reg: Registry, tags: set<Tag>)
    ensures Succeeds(reg, tags) && !Orderable(reg, tags)
  {
    reg := map["x" := Upgrader(["y"], false), "y" := Upgrader(["x"], false)];
    tags := {"x", "y"};
    var s := Begin(reg, tags);
    assert UntagSet(reg) == {"x", "y"} && TagSet(reg) == {};
    assert s == State({"x", "y"}, {"x", "y"}) && ReadySet(reg, s) == {"x", "y"};
    assert Rounds(reg, s, 0) == s && Rounds(reg, s, 1).pending == {};
    assert !RoundOrderable(reg, {"x", "y"}) by {
      forall part | Enumerates(part, {"x", "y"}) ensures !Unhurt(reg, part) { BothHurt(reg, part); }
    }
    assert ReadySet(reg, Rounds(reg, s, 0)) == {"x", "y"};
    SucceedsIffOrderable(reg, tags);
  }

  lemma BothHurt(reg: Registry, part: seq<Tag>)
    requires reg == map["x" := Upgrader(["y"], false), "y" := Upgrader(["x"], false)]
    requires Enumerates(part, {"x", "y"})
    ensures !Unhurt(reg, part)
  {
    assert "x" in ToSet(part) && "y" in ToSet(part);
    var i :| 0 <= i < |part| && part[i] == "x";
    var j :| 0 <= j < |part| && part[j] == "y";
    assert "y" in reg["x"].depends && "x" in reg["y"].depends;
  }
}
