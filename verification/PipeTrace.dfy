/**
 Reading an O3 pipeline trace: skipping to the start bound, collecting instructions line by line
 and returning early at the stop bound. The results compare what this prints with filtering the
 sorted complete trace.
 */
module PipeTrace {
  import opened Sorting
  import opened PipeInst
  import opened ReorderQueue

  /** A trace line; `Noise` is any line that is not an O3PipeView line. */
  datatype Line =
    | Noise
    | Fetch(tick: int, sn: int, text: string)
    | Event(stage: Stage, tick: int)
    | Retire(tick: int, store: int)

  const TICK_DRIFT: int := 2000

  /* ---- what the reader does with the lines ---- */

  /** The rest of the trace from the first line that satisfies `p`. */
  function SkipTo(p: Line -> bool, lines: seq<Line>): (r: seq<Line>)
  {
    if lines == [] || p(lines[0]) then lines else SkipTo(p, lines[1..])
  }

  const IS_FETCH: Line -> bool := (l: Line) => l.Fetch?

  function FromTick(t: int): Line -> bool { (l: Line) => !l.Noise? && l.tick >= t }

  function FromSn(sn: int): Line -> bool { (l: Line) => l.Fetch? && l.sn >= sn }

  /** The rest of the trace at which the region of interest begins. */
  function Start(o: Options, lines: seq<Line>): (r: seq<Line>)
  {
    SkipTo(IS_FETCH,
           if o.tickStart != 0 then SkipTo(FromTick(o.tickStart), lines)
           else if o.snStart != 0 then SkipTo(FromSn(o.snStart), lines)
           else lines)
  }

  /** A fetch so far past the stop bound that reading ends. */
  predicate Stops(o: Options, tick: int, sn: int) {
    || (o.tickStop > 0 && tick > o.tickStop + TICK_DRIFT * o.cycleTime)
    || (o.snStop > 0 && sn > o.snStop + MAX_THRESHOLD)
  }

  /** The record being filled; it is reused from one instruction to the next. */
  const BLANK: Inst := Inst(0, 0, 0, map[], "")

  function AtRetire(o: Options, cur: Inst, tick: int, store: int): (r: Inst)
  {
    cur.(retire := tick,
         text := if tick == 0 then "-----" + cur.text else cur.text,
         others := if o.storeCompletions then cur.others[Store := store] else cur.others)
  }

  predicate EndsReading(o: Options, line: Line) {
    line.Fetch? && Stops(o, line.tick, line.sn)
  }

  /** The record after a line. */
  function Filled(o: Options, cur: Inst, line: Line): (r: Inst)
  {
    match line
    case Noise => cur
    case Fetch(t, sn, text) => cur.(fetch := t, sn := sn, text := text)
    case Event(st, t) => cur.(others := cur.others[st := t])
    case Retire(t, store) => AtRetire(o, cur, t, store)
  }

  /** The instructions queued from `lines`, in order, when `cur` has been filled so far. */
  function Region(o: Options, lines: seq<Line>, cur: Inst): (r: seq<Inst>)
  {
    if lines == [] || EndsReading(o, lines[0]) then []
    else
      var c := Filled(o, cur, lines[0]);
      (if lines[0].Retire? then [c] else []) + Region(o, lines[1..], c)
  }

  /** What the viewer prints for a trace. */
  function Printed(o: Options, lines: seq<Line>): (r: seq<Inst>)
  {
    Select(Wants(o), Output(Region(o, Start(o, lines), BLANK)))
  }

  method Skip(p: Line -> bool, lines: seq<Line>) returns (r: seq<Line>)
    ensures r == SkipTo(p, lines)
  {
    r := lines;
    while r != [] && !p(r[0])
      invariant SkipTo(p, r) == SkipTo(p, lines)
      decreases |r|
    {
      r := r[1..];
    }
  }

  lemma RegionAt(o: Options, lines: seq<Line>, i: nat, cur: Inst)
    requires i < |lines| && !EndsReading(o, lines[i])
    ensures var c := Filled(o, cur, lines[i]);
            Region(o, lines[i..], cur) ==
            if lines[i].Retire? then [c] + Region(o, lines[i + 1..], c) else Region(o, lines[i + 1..], c)
  {
    assert lines[i..][1..] == lines[i + 1..];
    var r := Region(o, lines[i + 1..], Filled(o, cur, lines[i]));
    assert [] + r == r;
  }

  lemma RegionSoFar(o: Options, lines: seq<Line>, i: nat, cur: Inst, queued: seq<Inst>)
    requires i < |lines| && !EndsReading(o, lines[i])
    ensures var c := Filled(o, cur, lines[i]);
            queued + Region(o, lines[i..], cur) ==
            (if lines[i].Retire? then queued + [c] else queued) + Region(o, lines[i + 1..], c)
  {
    RegionAt(o, lines, i, cur);
  }

  /** The main loop: fills the record and queues it at each retire line. */
  method ReadRegion(queue: PrintQueue, lines: seq<Line>)
    requires queue.Filling() && queue.arrived == []
    modifies queue
    ensures queue.Filling() && queue.arrived == Region(queue.options, lines, BLANK)
  {
    var cur, i := BLANK, 0;
    ghost var region := Region(queue.options, lines, BLANK);
    assert lines[0..] == lines;
    while i < |lines| && !EndsReading(queue.options, lines[i])
      invariant i <= |lines| && queue.Filling()
      invariant region == queue.arrived + Region(queue.options, lines[i..], cur)
    {
      RegionSoFar(queue.options, lines, i, cur, queue.arrived);
      cur := Filled(queue.options, cur, lines[i]);
      if lines[i].Retire? {
        queue.QueueInst(cur);
      }
      i := i + 1;
    }
    assert Region(queue.options, lines[i..], cur) == [];
  }

  /** The reader of the source, over its print queue. */
  method ProcessTrace(o: Options, trace: seq<Line>) returns (printed: seq<Inst>)
    ensures printed == Printed(o, trace)
  {
    var rest := trace;
    if o.tickStart != 0 {
      rest := Skip(FromTick(o.tickStart), rest);
    } else if o.snStart != 0 {
      rest := Skip(FromSn(o.snStart), rest);
    }
    rest := Skip(IS_FETCH, rest);
    var queue := new PrintQueue(o);
    ReadRegion(queue, rest);
    queue.PrintInsts(0);
    printed := queue.printed;
  }

  /* ---- what the simulator writes ---- */

  /** An instruction as the simulator traces it; a stage it did not reach has tick 0. */
  datatype Traced = Traced(
    sn: nat, text: string, fetch: nat, decode: nat, rename: nat, dispatch: nat,
    issue: nat, complete: nat, retire: nat, store: nat)

  function Emit(x: Traced): (r: seq<Line>)
  {
    [Fetch(x.fetch, x.sn, x.text), Event(Decode, x.decode), Event(Rename, x.rename),
     Event(Dispatch, x.dispatch), Event(Issue, x.issue), Event(Complete, x.complete),
     Retire(x.retire, x.store)]
  }

  function Emitted(xs: seq<Traced>): (r: seq<Line>)
  {
    if xs == [] then [] else Emit(xs[0]) + Emitted(xs[1..])
  }

  /** The record a traced instruction should become. */
  function Shown(o: Options, x: Traced): (r: Inst)
  {
    var stages := map[Decode := x.decode, Rename := x.rename, Dispatch := x.dispatch,
                      Issue := x.issue, Complete := x.complete];
    Inst(x.sn, x.fetch, x.retire,
         if o.storeCompletions then stages[Store := x.store] else stages,
         if x.retire == 0 then "-----" + x.text else x.text)
  }

  function ShownAll(o: Options, xs: seq<Traced>): (r: seq<Inst>)
    ensures |r| == |xs|
    ensures forall i :: 0 <= i < |xs| ==> r[i] == Shown(o, xs[i])
  {
    seq(|xs|, i requires 0 <= i < |xs| => Shown(o, xs[i]))
  }

  function Denoise(lines: seq<Line>): (r: seq<Line>)
  {
    if lines == [] then []
    else if lines[0].Noise? then Denoise(lines[1..])
    else [lines[0]] + Denoise(lines[1..])
  }

  /** `lines` are the blocks of `xs`, interleaved with other output, and perhaps cut off inside
      one more block. */
  ghost predicate IsTraceOf(lines: seq<Line>, xs: seq<Traced>) {
    exists tail :: NoRetire(tail) && Denoise(lines) == Emitted(xs) + tail
  }

  ghost predicate NoRetire(lines: seq<Line>) {
    forall i :: 0 <= i < |lines| ==> !lines[i].Retire?
  }

  /* ---- other lines do not matter ---- */

  lemma {:induction false} SkipDenoise(p: Line -> bool, lines: seq<Line>)
    requires !p(Noise)
    ensures SkipTo(p, Denoise(lines)) == Denoise(SkipTo(p, lines))
  {
    if lines == [] {
    } else {
      var d := Denoise(lines[1..]);
      if !lines[0].Noise? {
        assert ([lines[0]] + d)[1..] == d;
      }
      SkipDenoise(p, lines[1..]);
    }
  }

  lemma {:induction false} RegionDenoise(o: Options, lines: seq<Line>, cur: Inst)
    ensures Region(o, Denoise(lines), cur) == Region(o, lines, cur)
    decreases |lines|
  {
    if lines == [] {
    } else {
      var d := Denoise(lines[1..]);
      RegionDenoise(o, lines[1..], Filled(o, cur, lines[0]));
      if lines[0].Noise? {
        assert [] + Region(o, lines[1..], cur) == Region(o, lines[1..], cur);
      } else {
        assert ([lines[0]] + d)[1..] == d;
      }
    }
  }

  lemma StartDenoise(o: Options, lines: seq<Line>)
    ensures Start(o, Denoise(lines)) == Denoise(Start(o, lines))
  {
    SkipDenoise(FromTick(o.tickStart), lines);
    SkipDenoise(FromSn(o.snStart), lines);
    SkipDenoise(IS_FETCH, SkipTo(FromTick(o.tickStart), lines));
    SkipDenoise(IS_FETCH, SkipTo(FromSn(o.snStart), lines));
    SkipDenoise(IS_FETCH, lines);
  }

  /* ---- reading whole blocks ---- */

  ghost predicate KnownStages(o: Options, cur: Inst) {
    forall st :: st in cur.others ==> st == Store ==> o.storeCompletions
  }

  /** A block gives the traced instruction, whatever the reused record held before. */
  lemma RegionBlock(o: Options, x: Traced, rest: seq<Line>, cur: Inst)
    requires KnownStages(o, cur)
    ensures Region(o, Emit(x) + rest, cur) ==
            if Stops(o, x.fetch, x.sn) then []
            else [Shown(o, x)] + Region(o, rest, Shown(o, x))
  {
    var b := Emit(x) + rest;
    if !Stops(o, x.fetch, x.sn) {
      RegionStages(o, x, rest, Filled(o, cur, b[0]));
      assert b[0..] == b;
      RegionAt(o, b, 0, cur);
    }
  }

  function Recorded(x: Traced, c: Inst): (r: Inst)
  {
    c.(others := c.others[Decode := x.decode][Rename := x.rename][Dispatch := x.dispatch]
                         [Issue := x.issue][Complete := x.complete])
  }

  lemma RetiredIsShown(o: Options, x: Traced, c: Inst)
    requires KnownStages(o, c) && c.fetch == x.fetch && c.sn == x.sn && c.text == x.text
    ensures AtRetire(o, Recorded(x, c), x.retire, x.store) == Shown(o, x)
  {
    assert AtRetire(o, Recorded(x, c), x.retire, x.store).others == Shown(o, x).others;
  }

  lemma RegionStages(o: Options, x: Traced, rest: seq<Line>, c1: Inst)
    requires KnownStages(o, c1) && c1.fetch == x.fetch && c1.sn == x.sn && c1.text == x.text
    ensures Region(o, (Emit(x) + rest)[1..], c1) == [Shown(o, x)] + Region(o, rest, Shown(o, x))
  {
    var b := Emit(x) + rest;
    RegionEvents(o, x, rest, c1);
    assert b[6] == Retire(x.retire, x.store) && b[7..] == rest;
    RegionAt(o, b, 6, Recorded(x, c1));
    RetiredIsShown(o, x, c1);
  }

  lemma RegionEvents(o: Options, x: Traced, rest: seq<Line>, c1: Inst)
    ensures Region(o, (Emit(x) + rest)[1..], c1) == Region(o, (Emit(x) + rest)[6..], Recorded(x, c1))
  {
    var b := Emit(x) + rest;
    var c2 := c1.(others := c1.others[Decode := x.decode]);
    var c3 := c2.(others := c2.others[Rename := x.rename]);
    var c4 := c3.(others := c3.others[Dispatch := x.dispatch]);
    var c5 := c4.(others := c4.others[Issue := x.issue]);
    calc {
      Region(o, b[1..], c1);
      { RegionAt(o, b, 1, c1); }
      Region(o, b[2..], c2);
      { RegionAt(o, b, 2, c2); }
      Region(o, b[3..], c3);
      { RegionAt(o, b, 3, c3); }
      Region(o, b[4..], c4);
      { RegionAt(o, b, 4, c4); }
      Region(o, b[5..], c5);
      { RegionAt(o, b, 5, c5); }
      Region(o, b[6..], Recorded(x, c1));
    }
  }

  lemma {:induction false} RegionNoRetire(o: Options, lines: seq<Line>, cur: Inst)
    requires NoRetire(lines)
    ensures Region(o, lines, cur) == []
    decreases |lines|
  {
    if lines == [] {
    } else {
      RegionNoRetire(o, lines[1..], Filled(o, cur, lines[0]));
    }
  }

  /** How many instructions are read before the first one that stops the reader. */
  function StopAt(o: Options, xs: seq<Traced>): (m: nat)
    ensures m <= |xs|
    ensures m < |xs| ==> Stops(o, xs[m].fetch, xs[m].sn)
    ensures forall i :: 0 <= i < m ==> !Stops(o, xs[i].fetch, xs[i].sn)
  {
    if xs == [] || Stops(o, xs[0].fetch, xs[0].sn) then 0 else 1 + StopAt(o, xs[1..])
  }

  /** What is read of the instructions `xs`. */
  function UntilStop(o: Options, xs: seq<Traced>): (r: seq<Inst>)
  {
    if xs == [] || Stops(o, xs[0].fetch, xs[0].sn) then [] else [Shown(o, xs[0])] + UntilStop(o, xs[1..])
  }

  lemma {:induction false} UntilStopIs(o: Options, xs: seq<Traced>)
    ensures UntilStop(o, xs) == ShownAll(o, xs)[..StopAt(o, xs)]
  {
    if xs == [] || Stops(o, xs[0].fetch, xs[0].sn) {
    } else {
      UntilStopIs(o, xs[1..]);
      ShownFront(o, xs, StopAt(o, xs[1..]));
    }
  }

  lemma {:induction false} RegionEmitted(o: Options, xs: seq<Traced>, tail: seq<Line>, cur: Inst)
    requires KnownStages(o, cur) && NoRetire(tail)
    ensures Region(o, Emitted(xs) + tail, cur) == UntilStop(o, xs)
    decreases |xs|
  {
    if xs == [] {
      assert Emitted(xs) + tail == tail;
      RegionNoRetire(o, tail, cur);
    } else {
      EmittedFront(xs, tail);
      RegionBlock(o, xs[0], Emitted(xs[1..]) + tail, cur);
      if !Stops(o, xs[0].fetch, xs[0].sn) {
        RegionEmitted(o, xs[1..], tail, Shown(o, xs[0]));
      }
    }
  }

  lemma EmittedFront(xs: seq<Traced>, tail: seq<Line>)
    requires xs != []
    ensures Emitted(xs) + tail == Emit(xs[0]) + (Emitted(xs[1..]) + tail)
  {
  }

  lemma ShownFront(o: Options, xs: seq<Traced>, n: nat)
    requires n < |xs|
    ensures ShownAll(o, xs)[..n + 1] == [Shown(o, xs[0])] + ShownAll(o, xs[1..])[..n]
  {
  }

  /* ---- skipping whole blocks ---- */

  lemma {:induction false} SkipPast(p: Line -> bool, a: seq<Line>, b: seq<Line>)
    requires forall i :: 0 <= i < |a| ==> !p(a[i])
    ensures SkipTo(p, a + b) == SkipTo(p, b)
  {
    if a == [] {
      assert a + b == b;
    } else {
      assert (a + b)[1..] == a[1..] + b;
      SkipPast(p, a[1..], b);
    }
  }

  lemma {:induction false} SkipIsSuffix(p: Line -> bool, lines: seq<Line>)
    requires NoRetire(lines)
    ensures NoRetire(SkipTo(p, lines))
  {
    if lines == [] || p(lines[0]) {
    } else {
      SkipIsSuffix(p, lines[1..]);
    }
  }

  /** Where the first line of a block that satisfies `p` is. */
  lemma FirstInBlock(p: Line -> bool, b: seq<Line>) returns (j: nat)
    ensures j <= |b| && (j < |b| ==> p(b[j]))
    ensures forall i :: 0 <= i < j ==> !p(b[i])
  {
    j := 0;
    while j < |b| && !p(b[j])
      invariant j <= |b| && forall i :: 0 <= i < j ==> !p(b[i])
    {
      j := j + 1;
    }
  }

  /** After the first fetch of the rest the reader is at the start of a block. */
  lemma SkipToBlock(xs: seq<Traced>, tail: seq<Line>) returns (tail': seq<Line>)
    requires NoRetire(tail)
    ensures NoRetire(tail')
    ensures SkipTo(IS_FETCH, Emitted(xs) + tail) == Emitted(xs) + tail'
  {
    if xs == [] {
      assert Emitted(xs) + tail == tail;
      tail' := SkipTo(IS_FETCH, tail);
      SkipIsSuffix(IS_FETCH, tail);
    } else {
      assert (Emitted(xs) + tail)[0] == Emit(xs[0])[0];
      tail' := tail;
    }
  }

  /** How many blocks are skipped: those before the first block with a line that satisfies `p`,
      and that block too unless the line is its fetch line. */
  function SkippedBy(p: Line -> bool, xs: seq<Traced>): (k: nat)
    ensures k <= |xs|
    ensures forall i :: 0 <= i < k ==> !p(Emit(xs[i])[0])
  {
    if xs == [] || p(Emit(xs[0])[0]) then 0
    else if exists i :: 0 <= i < 7 && p(Emit(xs[0])[i]) then 1
    else 1 + SkippedBy(p, xs[1..])
  }

  lemma TailAfter<T>(xs: seq<T>, k: nat)
    requires k + 1 <= |xs|
    ensures xs[1..][k..] == xs[k + 1..]
  {
  }

  /** Skipping drops whole blocks. */
  lemma {:induction false} SkipBlocks(p: Line -> bool, xs: seq<Traced>, tail: seq<Line>)
      returns (tail': seq<Line>)
    requires NoRetire(tail)
    ensures NoRetire(tail')
    ensures SkipTo(IS_FETCH, SkipTo(p, Emitted(xs) + tail)) == Emitted(xs[SkippedBy(p, xs)..]) + tail'
    decreases |xs|
  {
    if xs == [] {
      assert Emitted(xs) + tail == tail;
      tail' := SkipTo(IS_FETCH, SkipTo(p, tail));
      SkipIsSuffix(p, tail);
      SkipIsSuffix(IS_FETCH, SkipTo(p, tail));
      assert Emitted([]) + tail' == tail';
    } else {
      var b, rest := Emit(xs[0]), Emitted(xs[1..]) + tail;
      EmittedFront(xs, tail);
      var j := FirstInBlock(p, b);
      if j == 0 {
        tail' := SkipToBlock(xs, tail);
        assert xs[0..] == xs;
      } else if j < |b| {
        SkipInsideBlock(p, b, j, rest);
        tail' := SkipToBlock(xs[1..], tail);
      } else {
        SkipPast(p, b, rest);
        tail' := SkipBlocks(p, xs[1..], tail);
        TailAfter(xs, SkippedBy(p, xs[1..]));
      }
    }
  }

  lemma SkipInsideBlock(p: Line -> bool, b: seq<Line>, j: nat, rest: seq<Line>)
    requires j < |b| && p(b[j])
    requires forall i :: 0 <= i < j ==> !p(b[i])
    requires forall i :: j <= i < |b| ==> !b[i].Fetch?
    ensures SkipTo(IS_FETCH, SkipTo(p, b + rest)) == SkipTo(IS_FETCH, rest)
  {
    assert b + rest == b[..j] + (b[j..] + rest);
    SkipPast(p, b[..j], b[j..] + rest);
    SkipPast(IS_FETCH, b[j..], rest);
  }

  function Skipped(o: Options, xs: seq<Traced>): (k: nat)
    ensures k <= |xs|
  {
    if o.tickStart != 0 then SkippedBy(FromTick(o.tickStart), xs)
    else if o.snStart != 0 then SkippedBy(FromSn(o.snStart), xs)
    else 0
  }

  lemma StartBlocks(o: Options, xs: seq<Traced>, tail: seq<Line>) returns (tail': seq<Line>)
    requires NoRetire(tail)
    ensures NoRetire(tail')
    ensures Start(o, Emitted(xs) + tail) == Emitted(xs[Skipped(o, xs)..]) + tail'
  {
    if o.tickStart != 0 {
      tail' := SkipBlocks(FromTick(o.tickStart), xs, tail);
    } else if o.snStart != 0 {
      tail' := SkipBlocks(FromSn(o.snStart), xs, tail);
    } else {
      tail' := SkipToBlock(xs, tail);
      assert xs[0..] == xs;
    }
  }

  /** Skipping to the start loses no wanted instruction. */
  lemma SkippedUnwanted(o: Options, xs: seq<Traced>, i: nat)
    requires i < Skipped(o, xs)
    ensures !Wanted(o, Shown(o, xs[i]))
  {
    var fetch := Emit(xs[i])[0];
    if o.tickStart != 0 {
      assert !FromTick(o.tickStart)(fetch);
    } else {
      assert !FromSn(o.snStart)(fetch);
    }
  }

  /* ---- the whole run ---- */

  /** The first instruction that is read but ends the reading, or the end of the trace. */
  function ReadUpTo(o: Options, xs: seq<Traced>): (m: nat)
    ensures Skipped(o, xs) <= m <= |xs|
  {
    Skipped(o, xs) + StopAt(o, xs[Skipped(o, xs)..])
  }

  /** The queued instructions are a stretch of the traced ones. */
  lemma {:induction false} QueuedStretch(o: Options, lines: seq<Line>, xs: seq<Traced>)
    requires IsTraceOf(lines, xs)
    ensures Region(o, Start(o, lines), BLANK) == ShownAll(o, xs)[Skipped(o, xs)..ReadUpTo(o, xs)]
  {
    var tail :| NoRetire(tail) && Denoise(lines) == Emitted(xs) + tail;
    StartDenoise(o, lines);
    RegionDenoise(o, Start(o, lines), BLANK);
    var tail' := StartBlocks(o, xs, tail);
    RegionEmitted(o, xs[Skipped(o, xs)..], tail', BLANK);
    UntilStopStretch(o, xs);
  }

  lemma {:induction false} UntilStopStretch(o: Options, xs: seq<Traced>)
    ensures UntilStop(o, xs[Skipped(o, xs)..]) == ShownAll(o, xs)[Skipped(o, xs)..ReadUpTo(o, xs)]
  {
    var k := Skipped(o, xs);
    UntilStopIs(o, xs[k..]);
    ShownStretch(o, xs, k, StopAt(o, xs[k..]));
  }

  lemma ShownStretch(o: Options, xs: seq<Traced>, k: nat, n: nat)
    requires k + n <= |xs|
    ensures ShownAll(o, xs[k..])[..n] == ShownAll(o, xs)[k..k + n]
  {
  }

  /** A stretch of a trace is no more disordered than the trace. */
  lemma StretchOvertakers(xs: seq<Inst>, k: nat, m: nat, n: nat)
    requires k <= m <= |xs| && n < m - k
    ensures Overtakers(xs[k..m], n) <= Overtakers(xs, k + n)
  {
    assert xs[..k + n] == xs[..k] + xs[k..m][..n];
    CountConcat(BY_SN, xs[..k], xs[k..m][..n], xs[k + n].sn);
  }

  lemma StretchWithin(xs: seq<Inst>, k: nat, m: nat)
    requires k <= m <= |xs| && WithinPlaces(xs, MIN_THRESHOLD)
    ensures WithinPlaces(xs[k..m], MIN_THRESHOLD)
  {
    PlacesAreOvertakers(xs, MIN_THRESHOLD);
    forall n | 0 <= n < |xs[k..m]| ensures Overtakers(xs[k..m], n) <= MIN_THRESHOLD {
      StretchOvertakers(xs, k, m, n);
      assert Overtakers(xs, k + n) <= MIN_THRESHOLD;
    }
    PlacesAreOvertakers(xs[k..m], MIN_THRESHOLD);
  }

  /** No instruction from the one that ended the reading on is wanted. */
  ghost predicate StopsInTime(o: Options, xs: seq<Traced>) {
    forall j :: ReadUpTo(o, xs) <= j < |xs| ==> !Wanted(o, Shown(o, xs[j]))
  }

  /** The instructions that are read, as they are queued. */
  function Read(o: Options, xs: seq<Traced>): (r: seq<Inst>) { ShownAll(o, xs)[Skipped(o, xs)..ReadUpTo(o, xs)] }

  lemma PrintedIsFiltered(o: Options, lines: seq<Line>, xs: seq<Traced>)
    requires IsTraceOf(lines, xs)
    ensures Printed(o, lines) == Select(Wants(o), Output(Read(o, xs)))
  {
    QueuedStretch(o, lines, xs);
  }

  /** Nothing wanted is lost by skipping and stopping exactly when reading stops in time. */
  lemma ReadsWantedIff(o: Options, xs: seq<Traced>)
    ensures StopsInTime(o, xs) ==> Select(Wants(o), Read(o, xs)) == Select(Wants(o), ShownAll(o, xs))
    ensures !StopsInTime(o, xs) ==> |Select(Wants(o), Read(o, xs))| < |Select(Wants(o), ShownAll(o, xs))|
  {
    var all, k, m, p := ShownAll(o, xs), Skipped(o, xs), ReadUpTo(o, xs), Wants(o);
    forall i | 0 <= i < k ensures !p(all[i]) { SkippedUnwanted(o, xs, i); }
    SelectStretchIff(p, all, k, m);
    assert forall j :: m <= j < |xs| ==> (p(all[j]) <==> Wanted(o, Shown(o, xs[j])));
  }

  /** For every trace, the viewer prints exactly the wanted instructions of the complete trace, in
      some order, if and only if it stops in time. */
  lemma PrintsWantedIff(o: Options, lines: seq<Line>, xs: seq<Traced>)
    requires IsTraceOf(lines, xs)
    ensures multiset(Printed(o, lines)) == multiset(Select(Wants(o), ShownAll(o, xs))) <==> StopsInTime(o, xs)
  {
    var part, p := Read(o, xs), Wants(o);
    PrintedIsFiltered(o, lines, xs);
    SelectedIsPermutation(p, part);
    ReadsWantedIff(o, xs);
    assert |multiset(Select(p, part))| == |Select(p, part)|;
    assert |multiset(Select(p, ShownAll(o, xs)))| == |Select(p, ShownAll(o, xs))|;
  }

  /** For every trace, the viewer prints the wanted instructions of the complete trace in sequence
      order if and only if it stops in time and no wanted instruction is queued after one that belongs
      behind it was printed. */
  lemma PrintsFilteredTraceIff(o: Options, lines: seq<Line>, xs: seq<Traced>)
    requires IsTraceOf(lines, xs)
    ensures Printed(o, lines) == Select(Wants(o), StableSort(BY_SN, ShownAll(o, xs)))
            <==> StopsInTime(o, xs) && SelectedInTime(Wants(o), Read(o, xs))
  {
    var all, part, p := ShownAll(o, xs), Read(o, xs), Wants(o);
    PrintedIsFiltered(o, lines, xs);
    SelectedSortedIff(p, part);
    SelectSort(p, BY_SN, part);
    SelectSort(p, BY_SN, all);
    ReadsWantedIff(o, xs);
    SortFacts(BY_SN, Select(p, all));
    if Printed(o, lines) == Select(p, StableSort(BY_SN, all)) {
      PrintsWantedIff(o, lines, xs);
    }
  }

  /** When the queue can sort what is read, that is when it stops in time. */
  lemma PrintsInTimeIff(o: Options, lines: seq<Line>, xs: seq<Traced>)
    requires IsTraceOf(lines, xs) && ArrivesInTime(Read(o, xs))
    ensures Printed(o, lines) == Select(Wants(o), StableSort(BY_SN, ShownAll(o, xs))) <==> StopsInTime(o, xs)
  {
    ArrivesForEveryFilter(Wants(o), Read(o, xs));
    PrintsFilteredTraceIff(o, lines, xs);
  }

  /** The drift the source assumes: no later fetch is more than 2000 cycles, and no later sequence
      number more than 2000, below an earlier one. */
  ghost predicate WithinDrift(o: Options, xs: seq<Traced>) {
    && (forall i, j :: 0 <= i < j < |xs| ==> xs[j].fetch >= xs[i].fetch - 2000 * o.cycleTime)
    && (forall i, j :: 0 <= i < j < |xs| ==> xs[j].sn >= xs[i].sn - 2000)
  }

  /** Under the assumptions the source states, skipping, buffering and stopping early print
      what filtering the sorted complete trace prints. */
  lemma PrintsAsAssumed(o: Options, lines: seq<Line>, xs: seq<Traced>)
    requires IsTraceOf(lines, xs) && o.cycleTime >= 0
    requires WithinPlaces(ShownAll(o, xs), 1000)
    requires WithinDrift(o, xs)
    ensures Printed(o, lines) == Select(Wants(o), StableSort(BY_SN, ShownAll(o, xs)))
  {
    DriftStopsInTime(o, xs);
    StretchWithin(ShownAll(o, xs), Skipped(o, xs), ReadUpTo(o, xs));
    WithinThresholdSorts(Read(o, xs));
    PrintsInTimeIff(o, lines, xs);
  }

  /** Under the assumption on the drift alone, skipping and stopping early lose and add nothing,
      however far out of place the instructions are. */
  lemma PrintsWantedAsAssumed(o: Options, lines: seq<Line>, xs: seq<Traced>)
    requires IsTraceOf(lines, xs) && o.cycleTime >= 0 && WithinDrift(o, xs)
    ensures multiset(Printed(o, lines)) == multiset(Select(Wants(o), ShownAll(o, xs)))
  {
    DriftStopsInTime(o, xs);
    PrintsWantedIff(o, lines, xs);
  }

  lemma DriftStopsInTime(o: Options, xs: seq<Traced>)
    requires o.cycleTime >= 0 && WithinDrift(o, xs)
    ensures StopsInTime(o, xs)
  {
    var m := ReadUpTo(o, xs);
    if m < |xs| { StopsAtEnd(o, xs); }
    forall j | m <= j < |xs| ensures !Wanted(o, Shown(o, xs[j])) {
      DriftUnwanted(o, xs, m, j);
    }
  }

  lemma StopsAtEnd(o: Options, xs: seq<Traced>)
    requires ReadUpTo(o, xs) < |xs|
    ensures var x := xs[ReadUpTo(o, xs)]; Stops(o, x.fetch, x.sn)
  {
    var k := Skipped(o, xs);
    assert xs[k..][StopAt(o, xs[k..])] == xs[ReadUpTo(o, xs)];
  }

  lemma DriftUnwanted(o: Options, xs: seq<Traced>, m: nat, j: nat)
    requires o.cycleTime >= 0 && WithinDrift(o, xs)
    requires m <= j < |xs| && Stops(o, xs[m].fetch, xs[m].sn)
    ensures !Wanted(o, Shown(o, xs[j]))
  {
  }

  /* ---- what is printed, in the terms of the command line ---- */

  /** Every instruction that is printed from any trace is within the bounds that are given, and is a
      committed one if only those are asked for. */
  lemma PrintedWithinBounds(o: Options, lines: seq<Line>, i: nat)
    requires i < |Printed(o, lines)|
    ensures var x := Printed(o, lines)[i];
            && (o.snStart > 0 ==> x.sn >= o.snStart)
            && (o.snStop > 0 ==> x.sn <= o.snStop)
            && (o.tickStart > 0 ==> x.fetch >= o.tickStart)
            && (o.tickStop > 0 ==> x.fetch <= o.tickStop)
            && (o.committedOnly ==> x.retire != 0)
  {
    SelectMember(Wants(o), Output(Region(o, Start(o, lines), BLANK)), i);
  }

  /** Of the instructions that are read, those within the bounds are printed, in whatever order they
      come. */
  lemma ReadWithinBoundsPrinted(o: Options, lines: seq<Line>, xs: seq<Traced>, k: nat)
    requires IsTraceOf(lines, xs) && Skipped(o, xs) <= k < ReadUpTo(o, xs)
    requires (o.snStart > 0 ==> xs[k].sn >= o.snStart) && (o.snStop > 0 ==> xs[k].sn <= o.snStop)
    requires (o.tickStart > 0 ==> xs[k].fetch >= o.tickStart) && (o.tickStop > 0 ==> xs[k].fetch <= o.tickStop)
    requires o.committedOnly ==> xs[k].retire != 0
    ensures Shown(o, xs[k]) in Printed(o, lines)
  {
    PrintedIsFiltered(o, lines, xs);
    ReadHas(o, xs, k);
    SelectedFromOutput(Wants(o), Read(o, xs), Shown(o, xs[k]));
  }

  lemma ReadHas(o: Options, xs: seq<Traced>, k: nat)
    requires Skipped(o, xs) <= k < ReadUpTo(o, xs)
    ensures Shown(o, xs[k]) in Read(o, xs)
  {
    assert Read(o, xs)[k - Skipped(o, xs)] == ShownAll(o, xs)[k];
  }

  lemma SelectedFromOutput(p: Inst -> bool, xs: seq<Inst>, x: Inst)
    requires x in xs && p(x)
    ensures x in Select(p, Output(xs))
  {
    OutputIsPermutation(xs);
    assert x in multiset(xs) && x in multiset(Output(xs));
    SelectHas(p, Output(xs), x);
  }

  /** Under the assumption on the drift, an instruction of the trace is printed if and only if it is
      within the bounds. */
  lemma PrintedIffWithinBounds(o: Options, lines: seq<Line>, xs: seq<Traced>, k: nat)
    requires IsTraceOf(lines, xs) && o.cycleTime >= 0 && WithinDrift(o, xs) && k < |xs|
    ensures Shown(o, xs[k]) in Printed(o, lines) <==>
            && (o.snStart > 0 ==> xs[k].sn >= o.snStart)
            && (o.snStop > 0 ==> xs[k].sn <= o.snStop)
            && (o.tickStart > 0 ==> xs[k].fetch >= o.tickStart)
            && (o.tickStop > 0 ==> xs[k].fetch <= o.tickStop)
            && (o.committedOnly ==> xs[k].retire != 0)
  {
    var x := Shown(o, xs[k]);
    if x in Printed(o, lines) {
      var i :| 0 <= i < |Printed(o, lines)| && Printed(o, lines)[i] == x;
      PrintedWithinBounds(o, lines, i);
    }
    if Wanted(o, x) {
      if k < Skipped(o, xs) { SkippedUnwanted(o, xs, k); }
      DriftStopsInTime(o, xs);
      ReadWithinBoundsPrinted(o, lines, xs, k);
    }
  }

  /** Reading has ended at instruction `j` exactly when it, or one read before it, was fetched more
      than 2000 cycles past the stop tick or has a sequence number more than 2000 past the last one. */
  lemma ReadingEndsIff(o: Options, xs: seq<Traced>, j: nat)
    requires Skipped(o, xs) <= j < |xs|
    ensures ReadUpTo(o, xs) <= j <==>
            exists i :: Skipped(o, xs) <= i <= j &&
              (|| (o.tickStop > 0 && xs[i].fetch > o.tickStop + 2000 * o.cycleTime)
               || (o.snStop > 0 && xs[i].sn > o.snStop + 2000))
  {
    var k := Skipped(o, xs);
    if ReadUpTo(o, xs) <= j { StopsAtEnd(o, xs); }
    forall i | k <= i < ReadUpTo(o, xs) ensures !Stops(o, xs[i].fetch, xs[i].sn) {
      assert xs[k..][i - k] == xs[i];
    }
  }

  /** With a start tick, the instructions are skipped up to the first of which some stage is at or
      after that tick, and that one too unless it is the fetch. */
  lemma SkippedByTickIff(o: Options, xs: seq<Traced>, j: nat)
    requires o.tickStart != 0 && j < |xs|
    ensures j < Skipped(o, xs) <==>
            && xs[j].fetch < o.tickStart
            && forall i :: 0 <= i < j ==> var x := xs[i];
                 && x.fetch < o.tickStart && x.decode < o.tickStart && x.rename < o.tickStart
                 && x.dispatch < o.tickStart && x.issue < o.tickStart && x.complete < o.tickStart
                 && x.retire < o.tickStart
  {
    SkippedByIff(FromTick(o.tickStart), xs, j);
    forall i | 0 <= i < j
      ensures (forall n :: 0 <= n < 7 ==> !FromTick(o.tickStart)(Emit(xs[i])[n])) <==>
              var x := xs[i];
              && x.fetch < o.tickStart && x.decode < o.tickStart && x.rename < o.tickStart
              && x.dispatch < o.tickStart && x.issue < o.tickStart && x.complete < o.tickStart
              && x.retire < o.tickStart
    {
      BlockBefore(xs[i], o.tickStart);
    }
  }

  lemma BlockBefore(x: Traced, t: int)
    ensures (forall n :: 0 <= n < 7 ==> !FromTick(t)(Emit(x)[n])) <==>
            && x.fetch < t && x.decode < t && x.rename < t
            && x.dispatch < t && x.issue < t && x.complete < t && x.retire < t
  {
    var b := Emit(x);
    assert b[0].tick == x.fetch && b[1].tick == x.decode && b[2].tick == x.rename && b[3].tick == x.dispatch;
    assert b[4].tick == x.issue && b[5].tick == x.complete && b[6].tick == x.retire;
  }

  /** With a first sequence number and no start tick, the instructions before that number are
      skipped up to the first that has it or a greater one. */
  lemma SkippedBySnIff(o: Options, xs: seq<Traced>, j: nat)
    requires o.tickStart == 0 && o.snStart != 0 && j < |xs|
    ensures j < Skipped(o, xs) <==> forall i :: 0 <= i <= j ==> xs[i].sn < o.snStart
  {
    SkippedByIff(FromSn(o.snStart), xs, j);
    assert forall i :: 0 <= i <= j ==> (FromSn(o.snStart)(Emit(xs[i])[0]) <==> xs[i].sn >= o.snStart);
    assert forall i, n :: 0 <= i <= j && 0 < n < 7 ==> !FromSn(o.snStart)(Emit(xs[i])[n]);
  }

  lemma {:induction false} SkippedByIff(p: Line -> bool, xs: seq<Traced>, j: nat)
    requires j < |xs|
    ensures j < SkippedBy(p, xs) <==>
            && !p(Emit(xs[j])[0])
            && forall i, n :: 0 <= i < j && 0 <= n < 7 ==> !p(Emit(xs[i])[n])
  {
    if p(Emit(xs[0])[0]) {
    } else if j > 0 {
      SkippedByIff(p, xs[1..], j - 1);
      assert forall i :: 0 < i <= j ==> xs[i] == xs[1..][i - 1];
    }
  }
}
