/** The viewer as a whole: what is drawn for each instruction that is printed from a trace. */
module PipeView {
  import opened Sorting
  import opened PipeInst
  import opened ReorderQueue
  import opened PipeTrace
  import Timeline

  /** All stages that are drawn have been seen. */
  predicate AllSeen(o: Options, x: Inst) {
    && Decode in x.others && Rename in x.others && Dispatch in x.others && Issue in x.others
    && Complete in x.others && (o.storeCompletions ==> Store in x.others)
  }

  /** The ticks of the stages in the order in which the timeline has them. */
  function TicksOf(o: Options, x: Inst): (r: seq<int>)
    requires AllSeen(o, x)
    ensures 7 <= |r| <= 8
  {
    [x.fetch, x.others[Decode], x.others[Rename], x.others[Dispatch], x.others[Issue],
     x.others[Complete], x.retire] + if o.storeCompletions then [x.others[Store]] else []
  }

  /** What the simulator writes: a stage that was reached was reached no earlier than the fetch. */
  ghost predicate InTime(x: Traced) {
    && x.fetch > 0
    && forall t :: t in [x.decode, x.rename, x.dispatch, x.issue, x.complete, x.retire, x.store] ==>
                     t == 0 || t >= x.fetch
  }

  /** A traced instruction can be drawn. */
  lemma ShownIsDrawable(o: Options, x: Traced)
    requires InTime(x)
    ensures AllSeen(o, Shown(o, x)) && Timeline.WellTimed(TicksOf(o, Shown(o, x)))
  {
    var ts := [x.decode, x.rename, x.dispatch, x.issue, x.complete, x.retire, x.store];
    var r := TicksOf(o, Shown(o, x));
    assert forall s :: 1 <= s < |r| ==> r[s] == ts[s - 1] && ts[s - 1] in ts;
  }

  lemma SelectedOutput(o: Options, region: seq<Inst>, i: nat)
    requires i < |Select(Wants(o), Output(region))|
    ensures Select(Wants(o), Output(region))[i] in region
  {
    SelectMember(Wants(o), Output(region), i);
    OutputIsPermutation(region);
    var x := Select(Wants(o), Output(region))[i];
    assert x in multiset(Output(region)) && x in multiset(region);
  }

  lemma StretchMember(o: Options, xs: seq<Traced>, from: nat, to: nat, x: Inst) returns (k: nat)
    requires from <= to <= |xs| && x in ShownAll(o, xs)[from..to]
    ensures k < |xs| && x == Shown(o, xs[k])
  {
    var j :| 0 <= j < to - from && ShownAll(o, xs)[from..to][j] == x;
    k := from + j;
  }

  /** Every printed instruction is one of the traced ones. */
  lemma PrintedIsTraced(o: Options, lines: seq<Line>, xs: seq<Traced>, i: nat) returns (k: nat)
    requires IsTraceOf(lines, xs) && i < |Printed(o, lines)|
    ensures k < |xs| && Printed(o, lines)[i] == Shown(o, xs[k])
    ensures var x := Printed(o, lines)[i];
            && x.sn == xs[k].sn && x.fetch == xs[k].fetch && x.retire == xs[k].retire
            && x.text == if xs[k].retire == 0 then "-----" + xs[k].text else xs[k].text
  {
    SelectedOutput(o, Region(o, Start(o, lines), BLANK), i);
    QueuedStretch(o, lines, xs);
    k := StretchMember(o, xs, Skipped(o, xs), ReadUpTo(o, xs), Printed(o, lines)[i]);
  }

  ghost predicate InstDrawn(o: Options, width: nat, x: Inst, rows: seq<string>) {
    && AllSeen(o, x) && o.cycleTime > 0 && width * o.cycleTime > 0
    && Timeline.IsTimeline(width, o.cycleTime, width * o.cycleTime, TicksOf(o, x), rows)
  }

  /** The letters of the stages of a traced instruction and the ticks at which it reached them. */
  function Letters(o: Options, x: Traced): (r: seq<(char, int)>)
    ensures |r| == if o.storeCompletions then 8 else 7
  {
    [('f', x.fetch), ('d', x.decode), ('n', x.rename), ('p', x.dispatch), ('i', x.issue), ('c', x.complete),
     ('r', x.retire)] + if o.storeCompletions then [('s', x.store)] else []
  }

  lemma LetterTicks(o: Options, x: Traced)
    requires InTime(x)
    ensures var r := Shown(o, x);
            && AllSeen(o, r) && |TicksOf(o, r)| == |Letters(o, x)|
            && forall n :: 0 <= n < |Letters(o, x)| ==>
                 TicksOf(o, r)[n] == Letters(o, x)[n].1 && "fdnpicrs"[n] == Letters(o, x)[n].0
  {
  }

  lemma LetterTick(o: Options, x: Traced, n: nat)
    requires InTime(x) && n < |Letters(o, x)|
    ensures AllSeen(o, Shown(o, x))
    ensures var ticks := TicksOf(o, Shown(o, x));
            && |ticks| == |Letters(o, x)| && ticks[0] == x.fetch && ticks[n] == Letters(o, x)[n].1
            && "fdnpicrs"[n] == Letters(o, x)[n].0
            && (ticks[3] == ticks[4] <==> x.dispatch == x.issue)
  {
    LetterTicks(o, x);
  }

  /** The instruction lasts less than a row of `tw` ticks. */
  ghost predicate Short(o: Options, tw: int, x: Traced) {
    forall n :: 0 <= n < |Letters(o, x)| ==> Letters(o, x)[n].1 - x.fetch < tw
  }

  /** Reached stages that come on the same row, other than a dispatch in the tick of the issue, are in
      different columns. */
  ghost predicate Apart(o: Options, tw: int, x: Traced)
    requires o.cycleTime > 0 && tw > 0
  {
    forall a, b :: 0 <= a < b < |Letters(o, x)| ==>
      var s, t := Letters(o, x)[a].1, Letters(o, x)[b].1;
      || s == 0 || t == 0 || (x.dispatch == x.issue && (a == 3 || b == 3))
      || (!Short(o, tw, x) && s / tw != t / tw)
      || s % tw / o.cycleTime != t % tw / o.cycleTime
  }

  lemma ShortIsCompact(o: Options, tw: nat, x: Traced)
    requires tw > 0 && InTime(x)
    ensures AllSeen(o, Shown(o, x)) && (Short(o, tw, x) <==> Timeline.Compact(tw, TicksOf(o, Shown(o, x))))
  {
    LetterTicks(o, x);
    var ticks, ls := TicksOf(o, Shown(o, x)), Letters(o, x);
    var last := Timeline.LastTick(ticks);
    if Short(o, tw, x) {
      var n :| 0 <= n < |ticks| && ticks[n] == last;
      assert ls[n].1 - x.fetch < tw;
    } else {
      var n :| 0 <= n < |ls| && ls[n].1 - x.fetch >= tw;
      assert ticks[n] in ticks;
    }
  }

  /** Two stages that fall on the same row are apart. */
  lemma ApartPair(o: Options, tw: nat, x: Traced, ticks: seq<int>, i: nat, a: nat, b: nat)
    requires o.cycleTime > 0 && tw > 0 && InTime(x) && Apart(o, tw, x) && AllSeen(o, Shown(o, x))
    requires ticks == TicksOf(o, Shown(o, x)) && i < Timeline.NumLines(tw, ticks) && a < b < |ticks|
    requires Timeline.OnRow(tw, ticks, i, a) && Timeline.OnRow(tw, ticks, i, b)
    ensures (ticks[3] == ticks[4] && (a == 3 || b == 3))
            || ticks[a] % tw / o.cycleTime != ticks[b] % tw / o.cycleTime
  {
    LetterTicks(o, x);
    ShortIsCompact(o, tw, x);
    ShownIsDrawable(o, x);
    Timeline.DrawnOnExactlyOneRow(tw, ticks, a);
    Timeline.DrawnOnExactlyOneRow(tw, ticks, b);
    assert Letters(o, x)[a].1 == ticks[a] && Letters(o, x)[b].1 == ticks[b];
  }

  lemma ApartOnRow(o: Options, tw: nat, x: Traced, i: nat)
    requires o.cycleTime > 0 && tw > 0 && InTime(x) && Apart(o, tw, x) && AllSeen(o, Shown(o, x))
    requires i < Timeline.NumLines(tw, TicksOf(o, Shown(o, x)))
    ensures Timeline.ColumnsApart(o.cycleTime, tw, TicksOf(o, Shown(o, x)), i)
  {
    var ticks := TicksOf(o, Shown(o, x));
    forall a, b | 0 <= a < b < |ticks| && Timeline.OnRow(tw, ticks, i, a) && Timeline.OnRow(tw, ticks, i, b)
      ensures (ticks[3] == ticks[4] && (a == 3 || b == 3))
              || ticks[a] % tw / o.cycleTime != ticks[b] % tw / o.cycleTime
    {
      ApartPair(o, tw, x, ticks, i, a, b);
    }
  }

  lemma ApartOnRows(o: Options, tw: nat, x: Traced)
    requires o.cycleTime > 0 && tw > 0 && InTime(x) && Apart(o, tw, x) && AllSeen(o, Shown(o, x))
    ensures forall i: nat :: i < Timeline.NumLines(tw, TicksOf(o, Shown(o, x))) ==>
              Timeline.ColumnsApart(o.cycleTime, tw, TicksOf(o, Shown(o, x)), i)
  {
    forall i: nat | i < Timeline.NumLines(tw, TicksOf(o, Shown(o, x)))
      ensures Timeline.ColumnsApart(o.cycleTime, tw, TicksOf(o, Shown(o, x)), i)
    {
      ApartOnRow(o, tw, x, i);
    }
  }

  lemma RowsHaveLetter(
      o: Options, width: nat, tw: nat, x: Traced, ticks: seq<int>, rows: seq<string>, n: nat)
    requires o.cycleTime > 0 && tw > 0 && tw == width * o.cycleTime
    requires InTime(x) && InstDrawn(o, width, Shown(o, x), rows) && Apart(o, tw, x)
    requires ticks == TicksOf(o, Shown(o, x)) && n < |ticks| && ticks[n] != 0 && !(n == 3 && ticks[3] == ticks[4])
    ensures Timeline.HasChar(rows, if Short(o, tw, x) then 0 else ticks[n] / tw - ticks[0] / tw, width,
                             ticks[n] % tw / o.cycleTime, "fdnpicrs"[n])
  {
    ShortIsCompact(o, tw, x);
    ShownIsDrawable(o, x);
    ApartOnRows(o, tw, x);
    Timeline.TimelineHasLetter(width, o.cycleTime, tw, ticks, rows, n);
  }

  /** What is drawn of a traced instruction whose stages are in different columns: each stage it
      reached has its letter in the column of the cycle it reached it in. */
  lemma DrawingHasLetters(o: Options, width: nat, tw: nat, x: Traced, rows: seq<string>, n: nat)
    requires o.cycleTime > 0 && tw > 0 && tw == width * o.cycleTime
    requires InTime(x) && InstDrawn(o, width, Shown(o, x), rows) && Apart(o, tw, x)
    requires n < |Letters(o, x)| && Letters(o, x)[n].1 != 0 && !(n == 3 && x.dispatch == x.issue)
    ensures var t := Letters(o, x)[n].1;
            Timeline.HasChar(rows, if Short(o, tw, x) then 0 else t / tw - x.fetch / tw, width,
                             t % tw / o.cycleTime, Letters(o, x)[n].0)
  {
    LetterTick(o, x, n);
    RowsHaveLetter(o, width, tw, x, TicksOf(o, Shown(o, x)), rows, n);
  }

  method DrawInst(o: Options, width: nat, x: Inst) returns (rows: seq<string>)
    requires width > 0 && o.cycleTime > 0 && AllSeen(o, x) && Timeline.WellTimed(TicksOf(o, x))
    ensures InstDrawn(o, width, x, rows)
  {
    rows := Timeline.DrawTimeline(width, o.cycleTime, TicksOf(o, x));
  }

  lemma PrintedIsDrawable(o: Options, lines: seq<Line>, xs: seq<Traced>, i: nat)
    requires IsTraceOf(lines, xs) && i < |Printed(o, lines)| && forall k :: 0 <= k < |xs| ==> InTime(xs[k])
    ensures var x := Printed(o, lines)[i]; AllSeen(o, x) && Timeline.WellTimed(TicksOf(o, x))
  {
    var k := PrintedIsTraced(o, lines, xs, i);
    ShownIsDrawable(o, xs[k]);
  }

  /** Draws the timeline of every instruction printed from a trace. */
  method ViewTrace(o: Options, width: nat, trace: seq<Line>, ghost xs: seq<Traced>)
      returns (timelines: seq<seq<string>>)
    requires IsTraceOf(trace, xs) && (forall k :: 0 <= k < |xs| ==> InTime(xs[k]))
    requires width > 0 && o.cycleTime > 0
    ensures |timelines| == |Printed(o, trace)|
    ensures forall i :: 0 <= i < |timelines| ==> InstDrawn(o, width, Printed(o, trace)[i], timelines[i])
  {
    var printed := ProcessTrace(o, trace);
    timelines := [];
    for i := 0 to |printed|
      invariant |timelines| == i
      invariant forall r :: 0 <= r < i ==> InstDrawn(o, width, printed[r], timelines[r])
    {
      PrintedIsDrawable(o, trace, xs, i);
      var rows := DrawInst(o, width, printed[i]);
      timelines := timelines + [rows];
    }
  }
}
