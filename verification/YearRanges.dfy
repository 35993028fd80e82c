/**
 Copyright years: printing a set of years as ranges and reading ranges back.
 */
module YearRanges {
  import opened Wrappers
  import opened Text
  import opened Sorting
  import opened Seqs

  datatype Range = Range(first: int, last: int)

  ghost predicate Covers(r: Range, y: int) { r.first <= y <= r.last }

  /* ---- runs of years ---- */

  ghost predicate Increasing(ys: seq<int>) {
    forall i, j :: 0 <= i < j < |ys| ==> ys[i] < ys[j]
  }

  /** The runs of consecutive years of an increasing sequence. */
  function Runs(ys: seq<int>): (rs: seq<Range>)
    ensures ys != [] ==> rs != [] && rs[|rs| - 1].last == ys[|ys| - 1]
    ensures ys == [] ==> rs == []
  {
    if ys == [] then [] else WithYear(Runs(ys[..|ys| - 1]), ys[|ys| - 1])
  }

  /** The ranges are maximal: between one and the next at least one year is missing. */
  ghost predicate Separated(rs: seq<Range>) {
    && (forall i :: 0 <= i < |rs| ==> rs[i].first <= rs[i].last)
    && (forall i, j :: 0 <= i < j < |rs| ==> rs[i].last + 1 < rs[j].first)
  }

  ghost predicate InSome(rs: seq<Range>, y: int) {
    exists i :: 0 <= i < |rs| && Covers(rs[i], y)
  }

  /** One more year extends the last run or starts a new one. */
  function WithYear(rs: seq<Range>, y: int): (r: seq<Range>)
  {
    if rs != [] && y == rs[|rs| - 1].last + 1 then
      rs[..|rs| - 1] + [Range(rs[|rs| - 1].first, y)]
    else rs + [Range(y, y)]
  }

  lemma WithYearSeparated(rs: seq<Range>, y: int)
    requires Separated(rs) && (rs != [] ==> rs[|rs| - 1].last < y)
    ensures Separated(WithYear(rs, y))
  {
    assert forall i :: 0 <= i < |rs| ==> rs[i].last <= rs[|rs| - 1].last;
  }

  lemma WithYearCovers(rs: seq<Range>, y: int, z: int)
    requires Separated(rs)
    ensures InSome(WithYear(rs, y), z) <==> InSome(rs, z) || z == y
  {
    if rs != [] && y == rs[|rs| - 1].last + 1 {
      RunExtended(rs, y, z);
    } else {
      RunAdded(rs, Range(y, y), z);
    }
  }

  /** The runs are maximal ranges and cover exactly the years. */
  lemma {:induction false} RunsExact(ys: seq<int>)
    requires Increasing(ys)
    ensures Separated(Runs(ys))
    ensures forall y :: y in ys <==> InSome(Runs(ys), y)
  {
    if ys == [] {
    } else {
      var n := |ys| - 1;
      var a, y := ys[..n], ys[n];
      RunsExact(a);
      assert a != [] ==> a[|a| - 1] < y;
      WithYearSeparated(Runs(a), y);
      forall z ensures InSome(Runs(ys), z) <==> z in a || z == y {
        WithYearCovers(Runs(a), y, z);
      }
      assert ys == a + [y];
    }
  }

  lemma RunExtended(rs: seq<Range>, y: int, z: int)
    requires rs != [] && y == rs[|rs| - 1].last + 1 && rs[|rs| - 1].first <= y
    ensures InSome(rs[..|rs| - 1] + [Range(rs[|rs| - 1].first, y)], z) <==> InSome(rs, z) || z == y
  {
    var m := |rs| - 1;
    var all := rs[..m] + [Range(rs[m].first, y)];
    if i :| 0 <= i < |rs| && Covers(rs[i], z) { assert Covers(all[i], z); }
    if z == y { assert Covers(all[m], z); }
    if i :| 0 <= i < |all| && Covers(all[i], z) { assert z == y || Covers(rs[i], z); }
  }

  lemma RunAdded(rs: seq<Range>, r: Range, z: int)
    ensures InSome(rs + [r], z) <==> InSome(rs, z) || Covers(r, z)
  {
    var all := rs + [r];
    if i :| 0 <= i < |rs| && Covers(rs[i], z) { assert Covers(all[i], z); }
    if Covers(r, z) { assert Covers(all[|rs|], z); }
    if i :| 0 <= i < |all| && Covers(all[i], z) { assert i == |rs| || Covers(rs[i], z); }
  }

  lemma BeforeStart(rs: seq<Range>, i: nat)
    requires Separated(rs) && i < |rs|
    ensures !InSome(rs, rs[i].first - 1)
  {
    forall j | 0 <= j < |rs| ensures !Covers(rs[j], rs[i].first - 1) {
      assert j < i ==> rs[j].last + 1 < rs[i].first;
      assert i < j ==> rs[i].last + 1 < rs[j].first;
    }
  }

  /** No list of ranges with the same years is shorter than maximal ranges. */
  lemma {:induction false} FewestRanges(rs: seq<Range>, other: seq<Range>)
    requires Separated(rs) && forall y :: InSome(rs, y) <==> InSome(other, y)
    ensures |rs| <= |other|
  {
    var starts := set i | 0 <= i < |rs| :: rs[i].first;
    var firsts := set i | 0 <= i < |other| :: other[i].first;
    forall y | y in starts ensures y in firsts {
      var i :| 0 <= i < |rs| && rs[i].first == y;
      assert Covers(rs[i], y);
      assert InSome(rs, y);
      var k :| 0 <= k < |other| && Covers(other[k], y);
      BeforeStart(rs, i);
      assert !Covers(other[k], y - 1);
    }
    StartsDistinct(rs);
    AtMost(other);
    SubsetSize(starts, firsts);
  }

  lemma {:induction false} StartsDistinct(rs: seq<Range>)
    requires Separated(rs)
    ensures |set i | 0 <= i < |rs| :: rs[i].first| == |rs|
  {
    if rs == [] {
    } else {
      var n := |rs| - 1;
      var a := rs[..n];
      StartsDistinct(a);
      var x := set i | 0 <= i < |a| :: a[i].first;
      var y := set i | 0 <= i < |rs| :: rs[i].first;
      assert forall i :: 0 <= i < n ==> a[i] == rs[i];
      assert y == x + {rs[n].first};
      assert rs[n].first !in x;
    }
  }

  lemma {:induction false} AtMost(rs: seq<Range>)
    ensures |set i | 0 <= i < |rs| :: rs[i].first| <= |rs|
  {
    if rs == [] {
    } else {
      var n := |rs| - 1;
      var a := rs[..n];
      AtMost(a);
      var x := set i | 0 <= i < |a| :: a[i].first;
      var y := set i | 0 <= i < |rs| :: rs[i].first;
      assert forall i :: 0 <= i < n ==> a[i] == rs[i];
      assert y == x + {rs[n].first};
    }
  }

  /* ---- printing ---- */

  function RangeText(r: Range): (s: string)
  {
    if r.first == r.last then PrintInt(r.first) else PrintInt(r.first) + "-" + PrintInt(r.last)
  }

  function RangeTexts(rs: seq<Range>): (ts: seq<string>)
    ensures |ts| == |rs| && forall i :: 0 <= i < |rs| ==> ts[i] == RangeText(rs[i])
  {
    seq(|rs|, i requires 0 <= i < |rs| => RangeText(rs[i]))
  }

  const BY_VALUE: int -> int := (y: int) => y

  lemma NextYear(ys: seq<int>, k: nat, output: seq<Range>, r: Range)
    requires k < |ys| && Runs(ys[..k]) == output + [r]
    ensures Runs(ys[..k + 1]) ==
            if ys[k] == r.last + 1 then output + [Range(r.first, ys[k])] else output + [r] + [Range(ys[k], ys[k])]
  {
    assert ys[..k + 1][..k] == ys[..k];
    assert (output + [r])[..|output|] == output;
  }

  /** Prints the years, given in any order without repeats; an empty list raises. */
  method DateStr(dates: seq<int>) returns (r: Option<string>)
    ensures r == if dates == [] then None else Some(Join(RangeTexts(Runs(StableSort(BY_VALUE, dates))), ','))
  {
    var rest := StableSort(BY_VALUE, dates);
    SortLength(BY_VALUE, dates);
    if rest == [] { return None; }
    ghost var ys := rest;
    var output: seq<Range> := [];
    var first := rest[0];
    var second := first;
    rest := rest[1..];
    ghost var k := 1;
    assert ys[..1][..0] == [];
    assert Runs(ys[..1]) == [] + [Range(first, first)];
    while rest != []
      invariant 1 <= k <= |ys| && rest == ys[k..]
      invariant Runs(ys[..k]) == output + [Range(first, second)]
      decreases |rest|
    {
      var next := rest[0];
      NextYear(ys, k, output, Range(first, second));
      assert rest[1..] == ys[k + 1..] && next == ys[k];
      rest := rest[1..];
      if next == second + 1 {
        second := next;
      } else {
        output := output + [Range(first, second)];
        first, second := next, next;
      }
      k := k + 1;
    }
    assert ys[..k] == ys;
    output := output + [Range(first, second)];
    r := Some(Join(RangeTexts(output), ','));
  }

  /* ---- reading ---- */

  predicate FourDigits(s: string, i: nat) {
    i + 4 <= |s| && IsDigit(s[i]) && IsDigit(s[i + 1]) && IsDigit(s[i + 2]) && IsDigit(s[i + 3])
  }

  function SkipSpaces(s: string, i: nat): (k: nat)
    requires i <= |s|
    ensures i <= k <= |s|
    decreases |s| - i
  {
    if i < |s| && IsSpace(s[i]) then SkipSpaces(s, i + 1) else i
  }

  /** Four digits, a dash, four digits at the start of the text; what follows is not looked at. */
  function MatchRange(s: string): (r: Option<Range>)
  {
    if !FourDigits(s, 0) then None
    else
      var j := SkipSpaces(s, 4);
      if j == |s| || s[j] != '-' then None
      else
        var k := SkipSpaces(s, j + 1);
        if FourDigits(s, k) then Some(Range(DigitsValue(s[..4]), DigitsValue(s[k..k + 4]))) else None
  }

  function YearsOf(r: Range): (ys: set<int>)
    ensures forall y :: y in ys <==> r.first <= y <= r.last
    decreases r.last - r.first + 1
  {
    if r.first > r.last then {} else {r.first} + YearsOf(Range(r.first + 1, r.last))
  }

  /** The years that one item stands for; an item that is neither a range nor a number has none. */
  function ItemYears(date: string): (ys: set<int>)
  {
    match MatchRange(date)
    case Some(r) => YearsOf(r)
    case None =>
      match ParseInt(date)
      case Some(y) => {y}
      case None => {}
  }

  ghost function TextYears(text: string): (ys: set<int>)
  {
    ItemsYears(Split(text, ','))
  }

  ghost function ItemsYears(items: seq<string>): (ys: set<int>)
  {
    if items == [] then {} else ItemsYears(items[..|items| - 1]) + ItemYears(Strip(items[|items| - 1]))
  }

  method AddYears(years: set<int>, r: Range) returns (output: set<int>)
    ensures output == years + YearsOf(r)
  {
    output := years;
    var y := r.first;
    while y <= r.last
      invariant r.first <= y && (y <= r.last + 1 || y == r.first)
      invariant output == years + YearsOf(Range(r.first, y - 1))
      decreases r.last + 1 - y
    {
      output := output + {y};
      y := y + 1;
    }
    assert YearsOf(Range(r.first, y - 1)) == YearsOf(r);
  }

  method ProcessDates(text: string) returns (output: set<int>)
    ensures output == TextYears(text)
  {
    output := {};
    var dates := Split(text, ',');
    for i := 0 to |dates|
      invariant output == ItemsYears(dates[..i])
    {
      assert dates[..i + 1][..i] == dates[..i];
      var date := Strip(dates[i]);
      var m := MatchRange(date);
      if m.Some? {
        output := AddYears(output, m.value);
      } else {
        var n := ParseInt(date);
        if n.Some? { output := output + {n.value}; }
      }
    }
    assert dates[..|dates|] == dates;
  }

  /* ---- round trip ---- */

  ghost predicate FourDigitYear(y: int) { 1000 <= y <= 9999 }

  /** A range is readable if it is a single year or both its ends have four digits. */
  ghost predicate Readable(r: Range) {
    r.first == r.last || (FourDigitYear(r.first) && FourDigitYear(r.last))
  }

  lemma DigitCount(n: nat)
    ensures |Digits(n)| < 4 <==> n < 1000
    ensures |Digits(n)| == 4 <==> FourDigitYear(n)
  {
    assert Pow10(1) == 10 && Pow10(2) == 100 && Pow10(3) == 1000;
    assert Pow10(4) == 10 * Pow10(3);
    DigitsLength(n, 3);
    DigitsLength(n, 4);
  }

  /** A printed number is read as itself. */
  lemma SingleYear(y: int)
    ensures ItemYears(PrintInt(y)) == {y}
  {
    IntRoundTrip(y);
    assert y < 0 ==> PrintInt(y)[0] == '-';
    assert MatchRange(PrintInt(y)) == None;
  }

  lemma DashIsNoNumber(a: string, b: string)
    requires a != "" && Strip(a + "-" + b) == a + "-" + b
    ensures ParseInt(a + "-" + b) == None
  {
    var s := a + "-" + b;
    NoGroups(s, |a|);
    NoGroups(s[1..], |a| - 1);
  }

  /** A range that does not begin with a four-digit year is not read at all. */
  lemma UnreadableStart(r: Range)
    requires r.first < r.last && !FourDigitYear(r.first)
    ensures ItemYears(RangeText(r)) == {}
  {
    var a, b := PrintInt(r.first), PrintInt(r.last);
    var s := a + "-" + b;
    RangeTextPlain(r);
    DashIsNoNumber(a, b);
    if r.first < 0 {
      assert s[0] == '-';
    } else {
      DigitCount(r.first);
      if |a| < 4 {
        assert s[|a|] == '-';
      } else {
        assert IsDigit(a[4]) && s[4] == a[4];
        assert SkipSpaces(s, 4) == 4;
      }
    }
    assert MatchRange(s) == None;
  }

  lemma {:induction false} ValueBound(s: string)
    requires AllDigits(s)
    ensures DigitsValue(s) < Pow10(|s|)
  {
    if s == "" {
    } else {
      ValueBound(s[..|s| - 1]);
    }
  }

  /** A range that begins with a four-digit year is read up to the first four digits of its end. */
  lemma ReadRange(r: Range)
    requires r.first < r.last && FourDigitYear(r.first)
    ensures var b := Digits(r.last);
            |b| >= 4 && AllDigits(b[..4]) && ItemYears(RangeText(r)) == YearsOf(Range(r.first, DigitsValue(b[..4])))
  {
    var a, b := Digits(r.first), Digits(r.last);
    var s := a + "-" + b;
    DigitCount(r.first);
    DigitCount(r.last);
    assert s[4] == '-' && SkipSpaces(s, 4) == 4;
    assert IsDigit(b[0]) && s[5] == b[0];
    assert SkipSpaces(s, 5) == 5;
    assert forall i :: 0 <= i < 4 ==> s[i] == a[i] && s[5 + i] == b[i];
    assert s[..4] == a && s[5..9] == b[..4];
    DigitsRoundTrip(r.first);
  }

  /** What is read from a printed range lies in the range; it is the whole range exactly when the
      range is readable, and otherwise its last year is missing. */
  lemma RangeRoundTrip(r: Range)
    requires r.first <= r.last
    ensures forall y :: y in ItemYears(RangeText(r)) ==> Covers(r, y)
    ensures Readable(r) ==> forall y :: y in ItemYears(RangeText(r)) <==> Covers(r, y)
    ensures !Readable(r) ==> r.last !in ItemYears(RangeText(r))
  {
    if r.first == r.last {
      SingleYear(r.first);
    } else if !FourDigitYear(r.first) {
      UnreadableStart(r);
    } else {
      ReadRange(r);
      DigitCount(r.last);
      DigitsRoundTrip(r.last);
      var b := Digits(r.last);
      ValueBound(b[..4]);
      assert Pow10(4) == 10000 by { assert Pow10(2) == 100; assert Pow10(3) == 10 * Pow10(2); }
      if FourDigitYear(r.last) { assert b[..4] == b; }
    }
  }

  lemma RangeTextPlain(r: Range)
    ensures ',' !in RangeText(r) && Strip(RangeText(r)) == RangeText(r)
  {
    NumberPlain(r.first);
    NumberPlain(r.last);
    var s := RangeText(r);
    assert s[0] == PrintInt(r.first)[0];
    assert s[|s| - 1] == PrintInt(r.last)[|PrintInt(r.last)| - 1];
    StripNone(s);
  }

  lemma NumberPlain(y: int)
    ensures var s := PrintInt(y);
            forall i :: 0 <= i < |s| ==> s[i] != ',' && !IsSpace(s[i])
  {
    var s := PrintInt(y);
    forall i | 0 <= i < |s| ensures s[i] == '-' || IsDigit(s[i]) {
    }
  }

  /** `y` is one of the years of some item. */
  ghost predicate InItem(ts: seq<string>, y: int) {
    exists i :: 0 <= i < |ts| && y in ItemYears(ts[i])
  }

  ghost function Union(sets: seq<set<int>>): (ys: set<int>)
  {
    if sets == [] then {} else Union(sets[..|sets| - 1]) + sets[|sets| - 1]
  }

  lemma {:induction false} InUnion(sets: seq<set<int>>, y: int)
    ensures y in Union(sets) <==> exists i :: 0 <= i < |sets| && y in sets[i]
  {
    if sets == [] {
    } else {
      var n := |sets| - 1;
      InUnion(sets[..n], y);
      assert forall i :: 0 <= i < n ==> sets[..n][i] == sets[i];
    }
  }

  lemma {:induction false} ItemsAreUnion(ts: seq<string>, sets: seq<set<int>>)
    requires |sets| == |ts| && forall i :: 0 <= i < |ts| ==> ItemYears(Strip(ts[i])) == sets[i]
    ensures ItemsYears(ts) == Union(sets)
  {
    if ts == [] {
    } else {
      var n := |ts| - 1;
      ItemsAreUnion(ts[..n], sets[..n]);
    }
  }

  /** The years of the items `ts` are those of the stripped items `us`. */
  lemma {:induction false} ItemsYearsExact(ts: seq<string>, us: seq<string>, y: int)
    requires |us| == |ts| && forall i :: 0 <= i < |ts| ==> Strip(ts[i]) == us[i]
    ensures y in ItemsYears(ts) <==> InItem(us, y)
  {
    var sets := seq(|us|, i requires 0 <= i < |us| => ItemYears(us[i]));
    ItemsAreUnion(ts, sets);
    InUnion(sets, y);
  }

  /** The years of printed maximal ranges are read back exactly when every range is readable. */
  lemma RangesRoundTrip(rs: seq<Range>)
    requires rs != [] && Separated(rs)
    ensures (forall y :: y in TextYears(Join(RangeTexts(rs), ',')) <==> InSome(rs, y))
            <==> forall i :: 0 <= i < |rs| ==> Readable(rs[i])
  {
    var ts := RangeTexts(rs);
    forall i | 0 <= i < |rs| ensures ',' !in ts[i] && Strip(ts[i]) == ts[i] { RangeTextPlain(rs[i]); }
    SplitJoin(ts, ',');
    forall y ensures y in ItemsYears(ts) <==> ReadFrom(rs, y) { ItemsRead(rs, ts, y); }
    if i :| 0 <= i < |rs| && !Readable(rs[i]) {
      UnreadableLost(rs, i);
    } else {
      forall y ensures ReadFrom(rs, y) <==> InSome(rs, y) { AllReadable(rs, y); }
    }
  }

  lemma ItemsRead(rs: seq<Range>, ts: seq<string>, y: int)
    requires ts == RangeTexts(rs) && forall i :: 0 <= i < |ts| ==> Strip(ts[i]) == ts[i]
    ensures y in ItemsYears(ts) <==> ReadFrom(rs, y)
  {
    ItemsYearsExact(ts, ts, y);
    if i :| 0 <= i < |ts| && y in ItemYears(ts[i]) { assert y in ItemYears(RangeText(rs[i])); }
    if i :| 0 <= i < |rs| && y in ItemYears(RangeText(rs[i])) { assert y in ItemYears(ts[i]); }
  }

  /** `y` is read from one of the printed ranges. */
  ghost predicate ReadFrom(rs: seq<Range>, y: int) {
    exists i :: 0 <= i < |rs| && y in ItemYears(RangeText(rs[i]))
  }

  lemma AllReadable(rs: seq<Range>, y: int)
    requires forall i :: 0 <= i < |rs| ==> rs[i].first <= rs[i].last && Readable(rs[i])
    ensures ReadFrom(rs, y) <==> InSome(rs, y)
  {
    if i :| 0 <= i < |rs| && y in ItemYears(RangeText(rs[i])) {
      RangeRoundTrip(rs[i]);
      assert Covers(rs[i], y);
    }
    if i :| 0 <= i < |rs| && Covers(rs[i], y) {
      RangeRoundTrip(rs[i]);
      assert y in ItemYears(RangeText(rs[i]));
    }
  }

  lemma UnreadableLost(rs: seq<Range>, i: nat)
    requires Separated(rs) && i < |rs| && !Readable(rs[i])
    ensures InSome(rs, rs[i].last) && !ReadFrom(rs, rs[i].last)
  {
    var y := rs[i].last;
    assert Covers(rs[i], y);
    forall j | 0 <= j < |rs| ensures y !in ItemYears(RangeText(rs[j])) {
      RangeRoundTrip(rs[j]);
      assert j < i ==> rs[j].last + 1 < rs[i].first;
      assert i < j ==> rs[i].last + 1 < rs[j].first;
    }
  }

  lemma DistinctSorts(ys: seq<int>)
    requires Distinct(ys)
    ensures Increasing(StableSort(BY_VALUE, ys))
    ensures forall y :: y in StableSort(BY_VALUE, ys) <==> y in ys
  {
    SortFacts(BY_VALUE, ys);
    SortedDistinct(ys, StableSort(BY_VALUE, ys));
  }

  lemma SortedDistinct(ys: seq<int>, s: seq<int>)
    requires Distinct(ys)
    requires Sorted(BY_VALUE, s) && multiset(s) == multiset(ys)
    ensures Increasing(s)
    ensures forall y :: y in s <==> y in ys
  {
    assert forall y :: y in s <==> y in multiset(s);
    assert forall y :: y in ys <==> y in multiset(ys);
    PermutedDistinct(ys, s);
    forall i, j | 0 <= i < j < |s| ensures s[i] < s[j] {
      assert BY_VALUE(s[i]) <= BY_VALUE(s[j]);
    }
  }

  /** Any two years in a row have four digits. */
  ghost predicate FourDigitRuns(dates: seq<int>) {
    forall y :: y in dates && y + 1 in dates ==> FourDigitYear(y) && FourDigitYear(y + 1)
  }

  /** Years in a row are in the same maximal range. */
  lemma SameRange(rs: seq<Range>, i: nat, j: nat, y: int)
    requires Separated(rs) && i < |rs| && j < |rs| && Covers(rs[i], y) && Covers(rs[j], y + 1)
    ensures i == j
  {
  }

  lemma ReadableIff(rs: seq<Range>, dates: seq<int>)
    requires Separated(rs) && forall y :: y in dates <==> InSome(rs, y)
    ensures (forall i :: 0 <= i < |rs| ==> Readable(rs[i])) <==> FourDigitRuns(dates)
  {
    if forall i :: 0 <= i < |rs| ==> Readable(rs[i]) {
      forall y | y in dates && y + 1 in dates ensures FourDigitYear(y) && FourDigitYear(y + 1) {
        var i :| 0 <= i < |rs| && Covers(rs[i], y);
        var j :| 0 <= j < |rs| && Covers(rs[j], y + 1);
        SameRange(rs, i, j, y);
      }
    }
    if FourDigitRuns(dates) {
      forall i | 0 <= i < |rs| ensures Readable(rs[i]) { RangeReadable(rs, dates, i); }
    }
  }

  lemma RangeReadable(rs: seq<Range>, dates: seq<int>, i: nat)
    requires i < |rs| && FourDigitRuns(dates) && forall y :: y in dates <==> InSome(rs, y)
    ensures rs[i].first <= rs[i].last ==> Readable(rs[i])
  {
    var r := rs[i];
    if r.first < r.last {
      assert Covers(r, r.first) && Covers(r, r.first + 1) && Covers(r, r.last - 1) && Covers(r, r.last);
      assert r.first in dates && r.first + 1 in dates && r.last - 1 in dates && r.last - 1 + 1 in dates;
    }
  }

  /** Reading printed years gives the years back exactly when any two years in a row have four
      digits. */
  lemma DatesRoundTrip(dates: seq<int>)
    requires dates != [] && Distinct(dates)
    ensures (forall y :: y in TextYears(Join(RangeTexts(Runs(StableSort(BY_VALUE, dates))), ',')) <==> y in dates)
            <==> FourDigitRuns(dates)
  {
    var ys := StableSort(BY_VALUE, dates);
    DistinctSorts(dates);
    assert dates[0] in ys;
    RunsExact(ys);
    RangesRoundTrip(Runs(ys));
    ReadableIff(Runs(ys), dates);
  }

  /** Every set of four-digit years survives. */
  lemma FourDigitYearsRoundTrip(dates: seq<int>)
    requires dates != [] && Distinct(dates) && forall y :: y in dates ==> FourDigitYear(y)
    ensures forall y :: y in TextYears(Join(RangeTexts(Runs(StableSort(BY_VALUE, dates))), ',')) <==> y in dates
  {
    DatesRoundTrip(dates);
  }

  /** Years that are lost: the range 9999-10000 is read as one that ends in 1000. */
  lemma LaterYearLost()
    ensures var dates := [9999, 10000];
            exists y :: !(y in TextYears(Join(RangeTexts(Runs(StableSort(BY_VALUE, dates))), ',')) <==> y in dates)
  {
    var dates := [9999, 10000];
    assert 9999 in dates && 9999 + 1 in dates && !FourDigitYear(10000);
    DatesRoundTrip(dates);
  }

  /* ---- years as they are written by hand ---- */

  /** A range of years with spaces around it and around its dash. */
  datatype Item = Item(before: string, range: Range, left: string, right: string, after: string)

  ghost predicate WellSpaced(t: Item) {
    && AllSpaces(t.before) && AllSpaces(t.left) && AllSpaces(t.right) && AllSpaces(t.after)
    && 1000 <= t.range.first <= 9999 && 1000 <= t.range.last <= 9999
  }

  function Bare(t: Item): (s: string)
  {
    if t.range.first == t.range.last then PrintInt(t.range.first)
    else PrintInt(t.range.first) + t.left + "-" + t.right + PrintInt(t.range.last)
  }

  function Spaced(t: Item): (s: string) { t.before + Bare(t) + t.after }

  function SpacedTexts(items: seq<Item>): (ts: seq<string>)
    ensures |ts| == |items| && forall i :: 0 <= i < |items| ==> ts[i] == Spaced(items[i])
  {
    seq(|items|, i requires 0 <= i < |items| => Spaced(items[i]))
  }

  lemma {:induction false} SkipAll(s: string, i: nat, k: nat)
    requires i <= k <= |s| && (forall j :: i <= j < k ==> IsSpace(s[j])) && (k < |s| ==> !IsSpace(s[k]))
    ensures SkipSpaces(s, i) == k
    decreases k - i
  {
    if i == k {
    } else {
      SkipAll(s, i + 1, k);
    }
  }

  lemma BareYears(t: Item)
    requires WellSpaced(t)
    ensures forall y :: y in ItemYears(Bare(t)) <==> t.range.first <= y <= t.range.last
  {
    if t.range.first == t.range.last {
      SingleYear(t.range.first);
    } else {
      DashMatched(Digits(t.range.first), t.left, t.right, Digits(t.range.last), "", t.range);
      assert Bare(t) + "" == Bare(t);
    }
  }

  lemma DashLayout(a: string, left: string, right: string, b: string, more: string)
    requires |a| == 4 && |b| == 4
    ensures var s, j := a + left + "-" + right + b + more, 4 + |left|;
            && |s| == j + 5 + |right| + |more| && s[..4] == a && s[j] == '-'
            && s[j + 1 + |right|..j + 5 + |right|] == b
            && (forall i :: 4 <= i < j ==> s[i] == left[i - 4])
            && (forall i :: j < i <= j + |right| ==> s[i] == right[i - j - 1])
  {
  }

  lemma DigitsAtStart(s: string, k: nat, a: string)
    requires |a| == 4 && AllDigits(a) && k + 4 <= |s| && s[k..k + 4] == a
    ensures FourDigits(s, k)
  {
    assert s[k] == a[0] && s[k + 1] == a[1] && s[k + 2] == a[2] && s[k + 3] == a[3];
  }

  /** Four digits, a dash with any spaces around it and four digits match, whatever follows. */
  lemma DashMatched(a: string, left: string, right: string, b: string, more: string, r: Range)
    requires FourDigitYear(r.first) && FourDigitYear(r.last) && a == Digits(r.first) && b == Digits(r.last)
    requires AllSpaces(left) && AllSpaces(right)
    ensures MatchRange(a + left + "-" + right + b + more) == Some(r)
  {
    var s := a + left + "-" + right + b + more;
    SpacesAreSpace(left);
    SpacesAreSpace(right);
    DigitCount(r.first);
    DigitCount(r.last);
    DigitsRoundTrip(r.first);
    DigitsRoundTrip(r.last);
    DashLayout(a, left, right, b, more);
    var j := 4 + |left|;
    var k := j + 1 + |right|;
    assert s[0..4] == a && s[k..k + 4] == b;
    DigitsAtStart(s, 0, a);
    DigitsAtStart(s, k, b);
    SkipAll(s, 4, j);
    SkipAll(s, j + 1, k);
  }

  lemma SpacedPlain(t: Item)
    requires WellSpaced(t)
    ensures ',' !in Spaced(t) && Strip(Spaced(t)) == Bare(t)
  {
    SpacesAreSpace(t.before);
    SpacesAreSpace(t.left);
    SpacesAreSpace(t.right);
    SpacesAreSpace(t.after);
    NumberPlain(t.range.first);
    NumberPlain(t.range.last);
    var s := Bare(t);
    assert s[0] == PrintInt(t.range.first)[0];
    assert s[|s| - 1] == PrintInt(t.range.last)[|PrintInt(t.range.last)| - 1];
    StripAround(t.before, s, t.after);
  }

  /** A list of four-digit years and ranges of them stands for those years, whatever spaces are
      around them and around the dashes. */
  lemma SpacedYearsRead(items: seq<Item>, y: int)
    requires items != [] && forall i :: 0 <= i < |items| ==> WellSpaced(items[i])
    ensures y in TextYears(Join(SpacedTexts(items), ',')) <==>
            exists i :: 0 <= i < |items| && items[i].range.first <= y <= items[i].range.last
  {
    var ts := SpacedTexts(items);
    var us := seq(|items|, i requires 0 <= i < |items| => Bare(items[i]));
    forall i | 0 <= i < |items| ensures ',' !in ts[i] && Strip(ts[i]) == us[i] { SpacedPlain(items[i]); }
    SplitJoin(ts, ',');
    ItemsYearsExact(ts, us, y);
    if i :| 0 <= i < |us| && y in ItemYears(us[i]) { BareYears(items[i]); }
    if i :| 0 <= i < |items| && items[i].range.first <= y <= items[i].range.last {
      BareYears(items[i]);
      assert y in ItemYears(us[i]);
    }
  }
}
