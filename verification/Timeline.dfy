/**
 The timeline that the pipeline viewer draws for one instruction, without colours. Ticks are laid
 out in rows of `width` columns of `cycle` ticks; an instruction that lasts less than one row is
 drawn on a single row that wraps around.
 */
module Timeline {
  import opened Arith
  import opened Sorting
  import opened Seqs

  /* Stages by position: fetch, decode, rename, dispatch, issue, complete, retire and, when store
     completions are shown, store. */
  const SHORTHAND: string := "fdnpicrs"
  const DISPATCH: nat := 3
  const ISSUE: nat := 4
  /** The place of each stage among the stage names in alphabetical order. */
  const NAME_PLACE: seq<nat> := [3, 1, 5, 2, 4, 0, 6, 7]

  datatype Event = Event(offset: nat, stage: nat, tick: int)

  /* ---- layout ---- */

  function BaseTick(tw: nat, ticks: seq<int>): (r: int)
    requires tw > 0 && |ticks| > 0
  {
    ticks[0] / tw * tw
  }

  function LastTick(ticks: seq<int>): (r: int)
    requires |ticks| > 0
    ensures r in ticks && forall t :: t in ticks ==> t <= r
  {
    if |ticks| == 1 then ticks[0]
    else
      var m := LastTick(ticks[1..]);
      assert ticks == [ticks[0]] + ticks[1..];
      if ticks[0] > m then ticks[0] else m
  }

  predicate Compact(tw: nat, ticks: seq<int>)
    requires |ticks| > 0
  {
    LastTick(ticks) - ticks[0] < tw
  }

  function NumLines(tw: nat, ticks: seq<int>): (r: int)
    requires tw > 0 && |ticks| > 0
  {
    if Compact(tw, ticks) then 1 else (LastTick(ticks) - BaseTick(tw, ticks)) / tw + 1
  }

  function StartTick(tw: nat, ticks: seq<int>, i: nat): (r: int)
    requires tw > 0 && |ticks| > 0
  {
    BaseTick(tw, ticks) + i * tw
  }

  function EndTick(tw: nat, ticks: seq<int>, i: nat): (r: int)
    requires tw > 0 && |ticks| > 0
  {
    StartTick(tw, ticks, i) + tw
      + if NumLines(tw, ticks) == 1 then ticks[0] - BaseTick(tw, ticks) else 0
  }

  /** The event of stage `s` is drawn on row `i`. */
  predicate OnRow(tw: nat, ticks: seq<int>, i: nat, s: nat)
    requires tw > 0 && s < |ticks|
  {
    ticks[s] != 0 && StartTick(tw, ticks, i) <= ticks[s] < EndTick(tw, ticks, i)
  }

  /** What the simulator writes: the fetch tick is positive and every stage that was reached was
      reached no earlier. */
  ghost predicate WellTimed(ticks: seq<int>) {
    && 7 <= |ticks| <= 8 && ticks[0] > 0
    && forall s :: 0 <= s < |ticks| && ticks[s] != 0 ==> ticks[s] >= ticks[0]
  }

  /* ---- rows ---- */

  /** There is one row exactly when the instruction lasts less than a row; otherwise there is a row for
      each multiple of `tw` from that of the fetch to that of the last stage. */
  lemma OneRowIffCompact(tw: nat, ticks: seq<int>)
    requires tw > 0 && WellTimed(ticks)
    ensures NumLines(tw, ticks) >= 1
    ensures NumLines(tw, ticks) == 1 <==> LastTick(ticks) - ticks[0] < tw
    ensures NumLines(tw, ticks) ==
            if LastTick(ticks) - ticks[0] < tw then 1 else LastTick(ticks) / tw - ticks[0] / tw + 1
  {
    if !Compact(tw, ticks) {
      QuotientShift(LastTick(ticks), tw, ticks[0] / tw);
      var d := LastTick(ticks) - BaseTick(tw, ticks);
      Quotient(ticks[0], tw, ticks[0] / tw);
      QuotientMonotone(tw, d, tw);
      Quotient(tw, tw, 1);
    }
  }

  /** The row on which a reached stage is drawn. */
  function RowOf(tw: nat, ticks: seq<int>, s: nat): (r: int)
    requires tw > 0 && s < |ticks|
  {
    if Compact(tw, ticks) then 0 else ticks[s] / tw - ticks[0] / tw
  }

  lemma RowIsQuotient(tw: nat, ticks: seq<int>, i: nat, s: nat)
    requires tw > 0 && s < |ticks| && ticks[s] != 0 && NumLines(tw, ticks) != 1
    ensures OnRow(tw, ticks, i, s) <==> ticks[s] / tw - ticks[0] / tw == i
  {
    var q := ticks[0] / tw + i;
    assert StartTick(tw, ticks, i) == q * tw;
    Quotient(ticks[s], tw, q);
  }

  /** Every reached stage is drawn on exactly one row. */
  lemma DrawnOnExactlyOneRow(tw: nat, ticks: seq<int>, s: nat)
    requires tw > 0 && WellTimed(ticks) && s < |ticks| && ticks[s] != 0
    ensures 0 <= RowOf(tw, ticks, s) < NumLines(tw, ticks)
    ensures forall i: nat :: i < NumLines(tw, ticks) ==>
              (OnRow(tw, ticks, i, s) <==> i == RowOf(tw, ticks, s))
  {
    OneRowIffCompact(tw, ticks);
    assert ticks[s] in ticks;
    Quotient(ticks[0], tw, ticks[0] / tw);
    if Compact(tw, ticks) {
      assert OnRow(tw, ticks, 0, s);
    } else {
      QuotientMonotone(ticks[0], ticks[s], tw);
      QuotientMonotone(ticks[s], LastTick(ticks), tw);
      QuotientShift(LastTick(ticks), tw, ticks[0] / tw);
      forall i: nat | i < NumLines(tw, ticks)
        ensures OnRow(tw, ticks, i, s) <==> i == RowOf(tw, ticks, s)
      {
        RowIsQuotient(tw, ticks, i, s);
      }
    }
  }

  /* ---- columns ---- */

  /** The column is inside the row, and together with the row it tells the cycle of the tick: its
      ticks start at the row's start plus the column, one row later for a wrapped tick. */
  lemma ColumnTellsCycle(width: nat, cycle: nat, tw: nat, ticks: seq<int>, i: nat, s: nat)
    requires tw == width * cycle > 0 && WellTimed(ticks) && s < |ticks|
    requires i < NumLines(tw, ticks) && OnRow(tw, ticks, i, s)
    ensures cycle > 0
    ensures var c := ticks[s] % tw / cycle;
            var wrapped := ticks[s] >= StartTick(tw, ticks, i) + tw;
            var from := StartTick(tw, ticks, i) + (if wrapped then tw else 0) + c * cycle;
            && 0 <= c < width
            && from <= ticks[s] < from + cycle
            && (wrapped ==> NumLines(tw, ticks) == 1)
  {
    var t, start := ticks[s], StartTick(tw, ticks, i);
    var wrapped := t >= start + tw;
    OffsetInRow(tw, ticks, i, s);
    var r := t % tw;
    QuotientBelow(r, cycle, width);
    Quotient(r, cycle, r / cycle);
  }

  lemma OffsetInRow(tw: nat, ticks: seq<int>, i: nat, s: nat)
    requires tw > 0 && WellTimed(ticks) && s < |ticks|
    requires i < NumLines(tw, ticks) && OnRow(tw, ticks, i, s)
    ensures var wrapped := ticks[s] >= StartTick(tw, ticks, i) + tw;
            && ticks[s] == StartTick(tw, ticks, i) + (if wrapped then tw else 0) + ticks[s] % tw
            && (wrapped ==> NumLines(tw, ticks) == 1)
  {
    var t, q := ticks[s], ticks[0] / tw + i;
    StartIsMultiple(tw, ticks, i);
    Quotient(ticks[0], tw, ticks[0] / tw);
    var wrapped := t >= q * tw + tw;
    Quotient(t, tw, if wrapped then q + 1 else q);
  }

  lemma StartIsMultiple(tw: nat, ticks: seq<int>, i: nat)
    requires tw > 0 && |ticks| > 0
    ensures var q := ticks[0] / tw + i;
            StartTick(tw, ticks, i) == q * tw && (q + 1) * tw == q * tw + tw
  {
  }

  /* ---- events of a row, in drawing order ---- */

  const DRAW_ORDER: Event -> int :=
    (e: Event) => 8 * e.offset + if e.stage < |NAME_PLACE| then NAME_PLACE[e.stage] else 0

  /** The events of the first `n` stages that fall on row `i`, in stage order. */
  function RowEvents(tw: nat, ticks: seq<int>, i: nat, n: nat): (r: seq<Event>)
    requires tw > 0 && n <= |ticks|
  {
    if n == 0 then []
    else
      var r := RowEvents(tw, ticks, i, n - 1);
      if OnRow(tw, ticks, i, n - 1) then r + [Event(ticks[n - 1] % tw, n - 1, ticks[n - 1])] else r
  }

  /** The row holds the event of each of the stages drawn on it, and nothing else. */
  lemma {:induction false} RowEventsExact(tw: nat, ticks: seq<int>, i: nat, n: nat, e: Event)
    requires tw > 0 && n <= |ticks|
    ensures e in RowEvents(tw, ticks, i, n) <==>
            && e.stage < n && e.tick == ticks[e.stage] && e.offset == e.tick % tw
            && OnRow(tw, ticks, i, e.stage)
  {
    if n == 0 {
    } else {
      RowEventsExact(tw, ticks, i, n - 1, e);
    }
  }

  /** A dispatch in the same tick as the issue is left out. */
  function Visible(ticks: seq<int>): Event -> bool {
    (e: Event) => !(e.stage == DISPATCH && |ticks| > ISSUE && ticks[DISPATCH] == ticks[ISSUE])
  }

  function Drawn(tw: nat, ticks: seq<int>, i: nat): (r: seq<Event>)
    requires tw > 0
  {
    Select(Visible(ticks), StableSort(DRAW_ORDER, RowEvents(tw, ticks, i, |ticks|)))
  }

  lemma DrawnFacts(tw: nat, ticks: seq<int>, i: nat)
    requires tw > 0 && |ticks| <= 8
    ensures var es := Drawn(tw, ticks, i);
            && Sorted(DRAW_ORDER, es)
            && forall j :: 0 <= j < |es| ==> es[j].stage < |ticks| && es[j].offset < tw
  {
    var all, p := RowEvents(tw, ticks, i, |ticks|), Visible(ticks);
    SelectSort(p, DRAW_ORDER, all);
    SortFacts(DRAW_ORDER, Select(p, all));
    SortFacts(DRAW_ORDER, all);
    var sorted := StableSort(DRAW_ORDER, all);
    var es := Drawn(tw, ticks, i);
    forall j | 0 <= j < |es| ensures es[j].stage < |ticks| && es[j].offset < tw {
      SelectMember(p, sorted, j);
      assert es[j] in multiset(sorted);
      RowEventsExact(tw, ticks, i, |ticks|, es[j]);
    }
  }

  /** A stage is drawn on the row its tick falls on, unless it is a dispatch that coincides with the
      issue. */
  lemma DrawnExact(tw: nat, ticks: seq<int>, i: nat, s: nat)
    requires tw > 0 && s < |ticks|
    ensures Event(ticks[s] % tw, s, ticks[s]) in Drawn(tw, ticks, i) <==>
            OnRow(tw, ticks, i, s) && !(s == DISPATCH && |ticks| > ISSUE && ticks[DISPATCH] == ticks[ISSUE])
  {
    var all, e := RowEvents(tw, ticks, i, |ticks|), Event(ticks[s] % tw, s, ticks[s]);
    RowEventsExact(tw, ticks, i, |ticks|, e);
    SortFacts(DRAW_ORDER, all);
    var sorted := StableSort(DRAW_ORDER, all);
    assert e in sorted <==> e in multiset(sorted);
    assert e in all <==> e in multiset(all);
    SelectHas(Visible(ticks), sorted, e);
  }

  lemma {:induction false} RowEventsDistinct(tw: nat, ticks: seq<int>, i: nat, n: nat)
    requires tw > 0 && n <= |ticks|
    ensures Distinct(RowEvents(tw, ticks, i, n))
  {
    if n == 0 {
    } else {
      RowEventsDistinct(tw, ticks, i, n - 1);
      var r, e := RowEvents(tw, ticks, i, n - 1), Event(ticks[n - 1] % tw, n - 1, ticks[n - 1]);
      RowEventsExact(tw, ticks, i, n - 1, e);
    }
  }

  /** No stage is drawn twice on a row. */
  lemma DrawnOnce(tw: nat, ticks: seq<int>, i: nat, j: nat, k: nat)
    requires tw > 0 && j < k < |Drawn(tw, ticks, i)|
    ensures Drawn(tw, ticks, i)[j].stage != Drawn(tw, ticks, i)[k].stage
  {
    var all, es := RowEvents(tw, ticks, i, |ticks|), Drawn(tw, ticks, i);
    RowEventsDistinct(tw, ticks, i, |ticks|);
    SortFacts(DRAW_ORDER, all);
    PermutedDistinct(all, StableSort(DRAW_ORDER, all));
    SelectDistinct(Visible(ticks), StableSort(DRAW_ORDER, all));
    DrawnFromRow(tw, ticks, i, j);
    DrawnFromRow(tw, ticks, i, k);
    assert es[j] != es[k];
  }

  lemma {:induction false} SelectDistinct<T>(p: T -> bool, s: seq<T>)
    requires Distinct(s)
    ensures Distinct(Select(p, s))
  {
    if s == [] {
    } else {
      var a, x := s[..|s| - 1], s[|s| - 1];
      SelectDistinct(p, a);
      SelectHas(p, a, x);
      assert x !in a;
    }
  }

  /** A drawn event is that of its stage. */
  lemma DrawnFromRow(tw: nat, ticks: seq<int>, i: nat, j: nat)
    requires tw > 0 && j < |Drawn(tw, ticks, i)|
    ensures var e := Drawn(tw, ticks, i)[j];
            e.stage < |ticks| && e == Event(ticks[e.stage] % tw, e.stage, ticks[e.stage])
  {
    var all := RowEvents(tw, ticks, i, |ticks|);
    var sorted, e := StableSort(DRAW_ORDER, all), Drawn(tw, ticks, i)[j];
    SelectMember(Visible(ticks), sorted, j);
    SortFacts(DRAW_ORDER, all);
    assert e in multiset(sorted) && e in multiset(all);
    RowEventsExact(tw, ticks, i, |ticks|, e);
  }

  /** The events of a row are drawn by their place in the row and, in one tick, by the names of their
      stages. */
  lemma DrawnByName(tw: nat, ticks: seq<int>, i: nat, j: nat, k: nat)
    requires tw > 0 && |ticks| <= 8 && j < k < |Drawn(tw, ticks, i)|
    ensures var names := ["fetch", "decode", "rename", "dispatch", "issue", "complete", "retire", "store"];
            var d, e := Drawn(tw, ticks, i)[j], Drawn(tw, ticks, i)[k];
            && d.stage < |ticks| && e.stage < |ticks|
            && (|| ticks[d.stage] % tw < ticks[e.stage] % tw
                || (ticks[d.stage] % tw == ticks[e.stage] % tw && LessString(names[d.stage], names[e.stage])))
  {
    var d, e := Drawn(tw, ticks, i)[j], Drawn(tw, ticks, i)[k];
    DrawnFromRow(tw, ticks, i, j);
    DrawnFromRow(tw, ticks, i, k);
    DrawnOnce(tw, ticks, i, j, k);
    DrawnFacts(tw, ticks, i);
    assert DRAW_ORDER(d) <= DRAW_ORDER(e);
    PlacesDiffer(d.stage, e.stage);
    if d.offset == e.offset { NamesInPlace(d.stage, e.stage); }
  }

  lemma PlacesDiffer(a: nat, b: nat)
    requires a < 8 && b < 8 && a != b
    ensures NAME_PLACE[a] < 8 && NAME_PLACE[b] < 8 && NAME_PLACE[a] != NAME_PLACE[b]
  {
  }

  lemma NamesInPlace(a: nat, b: nat)
    requires a < 8 && b < 8 && NAME_PLACE[a] < NAME_PLACE[b]
    ensures var names := ["fetch", "decode", "rename", "dispatch", "issue", "complete", "retire", "store"];
            LessString(names[a], names[b])
  {
  }

  /** What is drawn for an event: the letter of its stage in the column of its cycle. */
  datatype Mark = Mark(column: nat, letter: char)

  function MarkOf(cycle: nat, e: Event): (m: Mark)
    requires cycle > 0
  {
    Mark(e.offset / cycle, if e.stage < |SHORTHAND| then SHORTHAND[e.stage] else '?')
  }

  function Marks(cycle: nat, es: seq<Event>): (ms: seq<Mark>)
    requires cycle > 0
    ensures |ms| == |es| && forall j :: 0 <= j < |es| ==> ms[j] == MarkOf(cycle, es[j])
  {
    seq(|es|, j requires 0 <= j < |es| => MarkOf(cycle, es[j]))
  }

  ghost predicate InDrawingOrder(width: nat, ms: seq<Mark>) {
    && (forall j :: 0 <= j < |ms| ==> ms[j].column < width)
    && (forall j, k :: 0 <= j < k < |ms| ==> ms[j].column <= ms[k].column)
  }

  lemma DrawnInOrder(width: nat, cycle: nat, tw: nat, ticks: seq<int>, i: nat)
    requires cycle > 0 && |ticks| <= 8 && tw == width * cycle > 0
    ensures InDrawingOrder(width, Marks(cycle, Drawn(tw, ticks, i)))
  {
    DrawnFacts(tw, ticks, i);
    var es := Drawn(tw, ticks, i);
    var ms := Marks(cycle, es);
    forall j | 0 <= j < |ms| ensures ms[j].column < width {
      QuotientBelow(es[j].offset, cycle, width);
    }
    forall j, k | 0 <= j < k < |ms| ensures ms[j].column <= ms[k].column {
      assert DRAW_ORDER(es[j]) <= DRAW_ORDER(es[k]);
      QuotientMonotone(es[j].offset, es[k].offset, cycle);
    }
  }

  /* ---- drawing a row ---- */

  function Dots(dot: char, n: int): (r: string)
    ensures |r| == if n > 0 then n else 0
    ensures forall j :: 0 <= j < |r| ==> r[j] == dot
  {
    seq(if n > 0 then n else 0, _ => dot)
  }

  ghost predicate DistinctColumns(ms: seq<Mark>) {
    forall j, k :: 0 <= j < k < |ms| ==> ms[j].column != ms[k].column
  }

  /** How many of the first `n` marks share the column of the mark before them. */
  function Shared(ms: seq<Mark>, n: nat): (r: nat)
    requires n <= |ms|
  {
    if n <= 1 then 0 else Shared(ms, n - 1) + if ms[n - 1].column == ms[n - 2].column then 1 else 0
  }

  /** Where mark `j` is written: every mark that shares the column of the one before it moves itself,
      and what follows, one place to the right. */
  function Place(ms: seq<Mark>, j: nat): (r: nat)
    requires j < |ms|
  {
    ms[j].column + Shared(ms, j + 1)
  }

  ghost predicate IsPlace(ms: seq<Mark>, c: nat) {
    exists j :: 0 <= j < |ms| && Place(ms, j) == c
  }

  /** `text` shows the marks in their places and dots elsewhere. */
  ghost predicate Shows(text: string, width: nat, dot: char, ms: seq<Mark>) {
    && |text| == width + Shared(ms, |ms|)
    && (forall j :: 0 <= j < |ms| ==> Place(ms, j) < |text| && text[Place(ms, j)] == ms[j].letter)
    && (forall c :: 0 <= c < |text| && !IsPlace(ms, c) ==> text[c] == dot)
  }

  /** One column past the last of the first `n` marks. */
  function Reached(ms: seq<Mark>, n: nat): (pos: nat)
    requires n <= |ms|
  {
    if n == 0 then 0 else ms[n - 1].column + 1
  }

  /** With distinct columns every mark is in its own column. */
  lemma {:induction false} PlaceIsColumn(ms: seq<Mark>, n: nat)
    requires DistinctColumns(ms) && n <= |ms|
    ensures Shared(ms, n) == 0 && forall j :: 0 <= j < n ==> Place(ms, j) == ms[j].column
  {
    if n == 0 {
    } else {
      PlaceIsColumn(ms, n - 1);
      assert n >= 2 ==> ms[n - 2].column != ms[n - 1].column;
    }
  }

  /** The first `n` marks with the dots before each of them. */
  function Drawing(dot: char, ms: seq<Mark>, n: nat): (r: string)
    requires n <= |ms|
  {
    if n == 0 then ""
    else Drawing(dot, ms, n - 1) + Dots(dot, ms[n - 1].column - Reached(ms, n - 1)) + [ms[n - 1].letter]
  }

  function RowText(width: nat, dot: char, ms: seq<Mark>): (r: string)
  {
    Drawing(dot, ms, |ms|) + Dots(dot, width - Reached(ms, |ms|))
  }

  lemma {:induction false} DrawingLength(width: nat, dot: char, ms: seq<Mark>, n: nat)
    requires InDrawingOrder(width, ms) && n <= |ms|
    ensures |Drawing(dot, ms, n)| == Reached(ms, n) + Shared(ms, n)
    ensures n > 0 ==> |Drawing(dot, ms, n)| == Place(ms, n - 1) + 1
  {
    if n == 0 {
    } else {
      DrawingLength(width, dot, ms, n - 1);
    }
  }

  lemma {:induction false} DrawingMark(width: nat, dot: char, ms: seq<Mark>, n: nat, j: nat)
    requires InDrawingOrder(width, ms) && j < n <= |ms|
    ensures Place(ms, j) < |Drawing(dot, ms, n)| && Drawing(dot, ms, n)[Place(ms, j)] == ms[j].letter
  {
    if j == n - 1 {
      DrawingLength(width, dot, ms, n);
    } else {
      DrawingMark(width, dot, ms, n - 1, j);
    }
  }

  lemma {:induction false} DrawingDot(width: nat, dot: char, ms: seq<Mark>, n: nat, c: nat)
    requires InDrawingOrder(width, ms) && n <= |ms| && c < |Drawing(dot, ms, n)|
    requires forall j :: 0 <= j < n ==> Place(ms, j) != c
    ensures Drawing(dot, ms, n)[c] == dot
  {
    if n == 0 {
    } else if c < |Drawing(dot, ms, n - 1)| {
      DrawingDot(width, dot, ms, n - 1, c);
    } else {
      DrawingLength(width, dot, ms, n);
      assert c != Place(ms, n - 1);
    }
  }

  /** A row is one character wider than `width` for every event that shares the column of the one
      before it, and shows each event in its place; with distinct columns that is its column. */
  lemma RowShows(width: nat, dot: char, ms: seq<Mark>)
    requires InDrawingOrder(width, ms)
    ensures Shows(RowText(width, dot, ms), width, dot, ms)
    ensures DistinctColumns(ms) ==> |RowText(width, dot, ms)| == width
    ensures DistinctColumns(ms) ==> forall j :: 0 <= j < |ms| ==> Place(ms, j) == ms[j].column
  {
    var n, text := |ms|, RowText(width, dot, ms);
    DrawingLength(width, dot, ms, n);
    forall j | 0 <= j < n ensures Place(ms, j) < |text| && text[Place(ms, j)] == ms[j].letter {
      DrawingMark(width, dot, ms, n, j);
    }
    forall c | 0 <= c < |text| && !IsPlace(ms, c) ensures text[c] == dot {
      if c < |Drawing(dot, ms, n)| { DrawingDot(width, dot, ms, n, c); }
    }
    if DistinctColumns(ms) { PlaceIsColumn(ms, n); }
  }

  method DrawRow(width: nat, dot: char, ms: seq<Mark>) returns (text: string)
    ensures text == RowText(width, dot, ms)
  {
    text := "";
    var pos: nat, n: nat := 0, 0;
    while n < |ms|
      invariant n <= |ms| && pos == Reached(ms, n) && text == Drawing(dot, ms, n)
    {
      text := text + Dots(dot, ms[n].column - pos) + [ms[n].letter];
      pos := ms[n].column + 1;
      n := n + 1;
    }
    text := text + Dots(dot, width - pos);
  }

  /* ---- all rows ---- */

  method GatherEvents(tw: nat, ticks: seq<int>, i: nat) returns (es: seq<Event>)
    requires tw > 0 && |ticks| > 0
    ensures es == RowEvents(tw, ticks, i, |ticks|)
  {
    es := [];
    var start, end := StartTick(tw, ticks, i), EndTick(tw, ticks, i);
    for s := 0 to |ticks|
      invariant es == RowEvents(tw, ticks, i, s)
    {
      var tick := ticks[s];
      if tick != 0 && start <= tick < end {
        es := es + [Event(tick % tw, s, tick)];
      }
    }
  }

  /** Row `i` of the timeline. */
  function Row(width: nat, cycle: nat, tw: nat, ticks: seq<int>, i: nat): (r: string)
    requires cycle > 0 && tw > 0 && |ticks| >= 7
  {
    RowText(width, if ticks[6] == 0 then '=' else '.', Marks(cycle, Drawn(tw, ticks, i)))
  }

  /** Every row shows what falls on it. */
  lemma TimelineShows(width: nat, cycle: nat, tw: nat, ticks: seq<int>, i: nat)
    requires cycle > 0 && tw == width * cycle > 0 && 7 <= |ticks| <= 8
    ensures Shows(Row(width, cycle, tw, ticks, i), width, if ticks[6] == 0 then '=' else '.',
                  Marks(cycle, Drawn(tw, ticks, i)))
  {
    DrawnInOrder(width, cycle, tw, ticks, i);
    RowShows(width, if ticks[6] == 0 then '=' else '.', Marks(cycle, Drawn(tw, ticks, i)));
  }

  /* ---- what can be read off a row ---- */

  /** The stages that are drawn on row `i` are in different columns. */
  ghost predicate ColumnsApart(cycle: nat, tw: nat, ticks: seq<int>, i: nat)
    requires cycle > 0 && tw > 0 && |ticks| >= 7
  {
    forall a, b :: 0 <= a < b < |ticks| && OnRow(tw, ticks, i, a) && OnRow(tw, ticks, i, b) ==>
      (ticks[3] == ticks[4] && (a == 3 || b == 3)) || ticks[a] % tw / cycle != ticks[b] % tw / cycle
  }

  lemma DrawnOnRow(tw: nat, ticks: seq<int>, i: nat, j: nat)
    requires tw > 0 && |ticks| >= 7 && j < |Drawn(tw, ticks, i)|
    ensures var e := Drawn(tw, ticks, i)[j];
            && e.stage < |ticks| && e.offset == ticks[e.stage] % tw && OnRow(tw, ticks, i, e.stage)
            && !(e.stage == 3 && ticks[3] == ticks[4])
  {
    DrawnFromRow(tw, ticks, i, j);
    DrawnExact(tw, ticks, i, Drawn(tw, ticks, i)[j].stage);
  }

  lemma ApartMarks(cycle: nat, tw: nat, ticks: seq<int>, i: nat)
    requires cycle > 0 && tw > 0 && |ticks| >= 7 && ColumnsApart(cycle, tw, ticks, i)
    ensures DistinctColumns(Marks(cycle, Drawn(tw, ticks, i)))
  {
    var es := Drawn(tw, ticks, i);
    var ms := Marks(cycle, es);
    forall j, k | 0 <= j < k < |ms| ensures ms[j].column != ms[k].column {
      DrawnOnRow(tw, ticks, i, j);
      DrawnOnRow(tw, ticks, i, k);
      DrawnOnce(tw, ticks, i, j, k);
    }
  }

  /** A row whose stages are in different columns is `width` characters long and has the letter of
      each stage that falls on it in the column of its cycle. */
  lemma RowHasLetter(width: nat, cycle: nat, tw: nat, ticks: seq<int>, i: nat, s: nat)
    requires cycle > 0 && tw == width * cycle > 0 && 7 <= |ticks| <= 8 && ColumnsApart(cycle, tw, ticks, i)
    requires s < |ticks| && OnRow(tw, ticks, i, s) && !(s == 3 && ticks[3] == ticks[4])
    ensures var row := Row(width, cycle, tw, ticks, i);
            |row| == width && 0 <= ticks[s] % tw / cycle < width && row[ticks[s] % tw / cycle] == "fdnpicrs"[s]
  {
    var es := Drawn(tw, ticks, i);
    var ms := Marks(cycle, es);
    DrawnExact(tw, ticks, i, s);
    var j :| 0 <= j < |es| && es[j] == Event(ticks[s] % tw, s, ticks[s]);
    ApartMarks(cycle, tw, ticks, i);
    DrawnInOrder(width, cycle, tw, ticks, i);
    RowShows(width, if ticks[6] == 0 then '=' else '.', ms);
    assert Place(ms, j) == ms[j].column == ticks[s] % tw / cycle;
  }

  /** Every other column has a dot, or an equals sign if the instruction did not retire. */
  lemma RowHasDot(width: nat, cycle: nat, tw: nat, ticks: seq<int>, i: nat, c: nat)
    requires cycle > 0 && tw == width * cycle > 0 && 7 <= |ticks| <= 8 && ColumnsApart(cycle, tw, ticks, i)
    requires c < width
    requires forall s :: 0 <= s < |ticks| && OnRow(tw, ticks, i, s) && !(s == 3 && ticks[3] == ticks[4]) ==>
               ticks[s] % tw / cycle != c
    ensures var row := Row(width, cycle, tw, ticks, i);
            |row| == width && row[c] == if ticks[6] == 0 then '=' else '.'
  {
    var es := Drawn(tw, ticks, i);
    var ms := Marks(cycle, es);
    ApartMarks(cycle, tw, ticks, i);
    DrawnInOrder(width, cycle, tw, ticks, i);
    RowShows(width, if ticks[6] == 0 then '=' else '.', ms);
    forall j | 0 <= j < |ms| ensures Place(ms, j) != c {
      DrawnOnRow(tw, ticks, i, j);
    }
    assert !IsPlace(ms, c);
  }

  lemma TimeWidth(width: nat, cycle: nat)
    requires width > 0 && cycle > 0
    ensures width * cycle > 0
  {
  }

  /** `rows` are rows of the timeline, from the first on. */
  ghost predicate AreRows(width: nat, cycle: nat, tw: nat, ticks: seq<int>, rows: seq<string>)
    requires cycle > 0 && tw > 0 && |ticks| >= 7
  {
    forall i :: 0 <= i < |rows| ==> rows[i] == Row(width, cycle, tw, ticks, i)
  }

  lemma {:induction false} AreRowsSnoc(width: nat, cycle: nat, tw: nat, ticks: seq<int>, rows: seq<string>, row: string)
    requires cycle > 0 && tw > 0 && |ticks| >= 7
    requires AreRows(width, cycle, tw, ticks, rows) && row == Row(width, cycle, tw, ticks, |rows|)
    ensures AreRows(width, cycle, tw, ticks, rows + [row])
  {
    forall i | 0 <= i < |rows| + 1 ensures (rows + [row])[i] == Row(width, cycle, tw, ticks, i) {
      if i < |rows| { assert (rows + [row])[i] == rows[i]; }
    }
  }

  /** The timeline of an instruction: all its rows. */
  ghost predicate IsTimeline(width: nat, cycle: nat, tw: nat, ticks: seq<int>, rows: seq<string>)
    requires cycle > 0 && tw > 0 && |ticks| >= 7
  {
    |rows| == NumLines(tw, ticks) && AreRows(width, cycle, tw, ticks, rows)
  }

  /** Row `i` is `width` characters long and has `letter` in column `c`. */
  ghost predicate HasChar(rows: seq<string>, i: int, width: nat, c: int, letter: char) {
    0 <= i < |rows| && 0 <= c < |rows[i]| == width && rows[i][c] == letter
  }

  /** In a timeline whose stages are in different columns, a reached stage has its letter on the row
      its tick falls on, counted from that of the fetch, in the column of its cycle. */
  lemma TimelineHasLetter(width: nat, cycle: nat, tw: nat, ticks: seq<int>, rows: seq<string>, s: nat)
    requires cycle > 0 && tw == width * cycle > 0 && WellTimed(ticks) && IsTimeline(width, cycle, tw, ticks, rows)
    requires forall i: nat :: i < NumLines(tw, ticks) ==> ColumnsApart(cycle, tw, ticks, i)
    requires s < |ticks| && ticks[s] != 0 && !(s == 3 && ticks[3] == ticks[4])
    ensures HasChar(rows, if LastTick(ticks) - ticks[0] < tw then 0 else ticks[s] / tw - ticks[0] / tw, width,
                    ticks[s] % tw / cycle, "fdnpicrs"[s])
  {
    DrawnOnExactlyOneRow(tw, ticks, s);
    RowHasLetter(width, cycle, tw, ticks, RowOf(tw, ticks, s), s);
  }

  method DrawOneRow(width: nat, cycle: nat, tw: nat, ticks: seq<int>, i: nat) returns (row: string)
    requires cycle > 0 && tw > 0 && |ticks| >= 7
    ensures row == Row(width, cycle, tw, ticks, i)
  {
    var events := GatherEvents(tw, ticks, i);
    var es := Select(Visible(ticks), StableSort(DRAW_ORDER, events));
    row := DrawRow(width, if ticks[6] == 0 then '=' else '.', Marks(cycle, es));
  }

  method DrawRows(width: nat, cycle: nat, tw: nat, ticks: seq<int>, n: nat) returns (rows: seq<string>)
    requires cycle > 0 && tw > 0 && |ticks| >= 7
    ensures |rows| == n && AreRows(width, cycle, tw, ticks, rows)
  {
    rows := [];
    for i := 0 to n
      invariant |rows| == i && AreRows(width, cycle, tw, ticks, rows)
    {
      var row := DrawOneRow(width, cycle, tw, ticks, i);
      AreRowsSnoc(width, cycle, tw, ticks, rows, row);
      rows := rows + [row];
    }
  }

  method DrawTimeline(width: nat, cycle: nat, ticks: seq<int>) returns (rows: seq<string>)
    requires width > 0 && cycle > 0 && WellTimed(ticks)
    ensures width * cycle > 0 && IsTimeline(width, cycle, width * cycle, ticks, rows)
  {
    TimeWidth(width, cycle);
    var tw := width * cycle;
    OneRowIffCompact(tw, ticks);
    rows := DrawRows(width, cycle, tw, ticks, NumLines(tw, ticks));
  }
}
