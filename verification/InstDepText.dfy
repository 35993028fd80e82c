/**
 The ASCII form of instruction dependency records: one script prints a record as a line, the
 other parses a line back into a record.
 */
module InstDepText {
  import opened Wrappers
  import opened Text

  datatype Kind = INVALID | LOAD | STORE | COMP

  datatype Record = Record(
    seqNum: nat, kind: Kind, pAddr: Option<nat>, size: Option<nat>, flags: Option<nat>,
    robDep: seq<nat>, compDelay: nat, regDep: seq<nat>,
    weight: Option<nat>, pc: Option<nat>, vAddr: Option<nat>, asid: Option<nat>)

  const LIMIT32: nat := 0x1_0000_0000
  const LIMIT64: nat := 0x1_0000_0000_0000_0000

  predicate Below(o: Option<nat>, limit: nat) { o.Some? ==> o.value < limit }

  predicate AllBelow(ds: seq<nat>, limit: nat) {
    forall i :: 0 <= i < |ds| ==> ds[i] < limit
  }

  /** The fields hold what their message types can hold. */
  predicate InRange(r: Record) {
    && r.seqNum < LIMIT64 && r.compDelay < LIMIT64
    && Below(r.pAddr, LIMIT64) && Below(r.size, LIMIT32) && Below(r.flags, LIMIT32)
    && Below(r.weight, LIMIT32) && Below(r.pc, LIMIT64)
    && AllBelow(r.robDep, LIMIT64) && AllBelow(r.regDep, LIMIT64)
  }

  predicate IsMemory(k: Kind) { k == LOAD || k == STORE }

  function NameOf(k: Kind): (s: string)
  {
    match k
    case INVALID => "INVALID"
    case LOAD => "LOAD"
    case STORE => "STORE"
    case COMP => "COMP"
  }

  function KindOf(s: string): (k: Option<Kind>)
  {
    if s == "INVALID" then Some(INVALID)
    else if s == "LOAD" then Some(LOAD)
    else if s == "STORE" then Some(STORE)
    else if s == "COMP" then Some(COMP)
    else None
  }

  /* ---- printing ---- */

  function Field(o: Option<nat>): (r: seq<string>) { if o.Some? then [Digits(o.value)] else [] }

  function OrDefault(o: Option<nat>, d: nat): (r: nat) { if o.Some? then o.value else d }

  /** The comma-separated fields before the first colon. */
  function InfoFields(r: Record): (fs: seq<string>)
  {
    [Digits(r.seqNum), Digits(OrDefault(r.pc, 0)), Digits(OrDefault(r.weight, 1)), NameOf(r.kind)]
    + Field(r.pAddr) + Field(r.size) + Field(r.flags) + [Digits(r.compDelay)]
  }

  function DigitsAll(ds: seq<nat>): (fs: seq<string>)
    ensures |fs| == |ds| && forall i :: 0 <= i < |ds| ==> fs[i] == Digits(ds[i])
  {
    seq(|ds|, i requires 0 <= i < |ds| => Digits(ds[i]))
  }

  /** A dependency list: every number is preceded by a comma. */
  function DepText(ds: seq<nat>): (s: string) { Join([""] + DigitsAll(ds), ',') }

  function Line(r: Record): (s: string)
  {
    Join(InfoFields(r), ',') + ":" + DepText(r.robDep) + ":" + DepText(r.regDep)
  }

  lemma DepTextSnoc(ds: seq<nat>, d: nat)
    ensures DepText(ds + [d]) == DepText(ds) + "," + Digits(d)
  {
    assert [""] + DigitsAll(ds + [d]) == [""] + DigitsAll(ds) + [Digits(d)];
    JoinSnoc([""] + DigitsAll(ds), Digits(d), ',');
  }

  method AppendField(line: string, ghost fs: seq<string>, f: string) returns (r: string)
    requires fs != [] && line == Join(fs, ',')
    ensures r == Join(fs + [f], ',')
  {
    JoinSnoc(fs, f, ',');
    r := line + "," + f;
  }

  method AppendOptional(line: string, ghost fs: seq<string>, o: Option<nat>) returns (r: string)
    requires fs != [] && line == Join(fs, ',')
    ensures r == Join(fs + Field(o), ',')
  {
    if o.Some? {
      r := AppendField(line, fs, Digits(o.value));
    } else {
      assert fs + Field(o) == fs;
      r := line;
    }
  }

  method PrintDeps(ds: seq<nat>) returns (s: string)
    ensures s == DepText(ds)
  {
    s := "";
    for i := 0 to |ds|
      invariant s == DepText(ds[..i])
    {
      s := s + "," + Digits(ds[i]);
      assert ds[..i + 1] == ds[..i] + [ds[i]];
      DepTextSnoc(ds[..i], ds[i]);
    }
    assert ds[..|ds|] == ds;
  }

  /** Prints a record, field by field. */
  method PrintRecord(r: Record) returns (s: string)
    ensures s == Line(r) + "\n"
  {
    s := Digits(r.seqNum);
    ghost var fs := [s];
    s := AppendField(s, fs, Digits(OrDefault(r.pc, 0)));
    fs := fs + [Digits(OrDefault(r.pc, 0))];
    s := AppendField(s, fs, Digits(OrDefault(r.weight, 1)));
    fs := fs + [Digits(OrDefault(r.weight, 1))];
    s := AppendField(s, fs, NameOf(r.kind));
    fs := fs + [NameOf(r.kind)];
    s := AppendOptional(s, fs, r.pAddr);
    s := AppendOptional(s, fs + Field(r.pAddr), r.size);
    s := AppendOptional(s, fs + Field(r.pAddr) + Field(r.size), r.flags);
    fs := fs + Field(r.pAddr) + Field(r.size) + Field(r.flags);
    s := AppendField(s, fs, Digits(r.compDelay));
    assert fs + [Digits(r.compDelay)] == InfoFields(r);
    var rob := PrintDeps(r.robDep);
    var reg := PrintDeps(r.regDep);
    s := s + ":" + rob + ":" + reg + "\n";
  }

  /* ---- parsing ---- */

  /** A number that a field can hold; a negative one raises. */
  function ParseField(s: string): (r: Option<nat>)
  {
    var n :- ParseInt(s);
    if n >= 0 then Some(n) else None
  }

  lemma FieldRoundTrip(n: nat)
    ensures ParseField(Digits(n)) == Some(n)
  {
    IntRoundTrip(n);
  }

  /** A negative number is refused. */
  lemma NegativeRefused(n: nat)
    requires n > 0
    ensures ParseField("-" + Digits(n)) == None
  {
    IntAsWritten("", "-", n, "");
    assert "" + ("-" + Digits(n)) + "" == "-" + Digits(n);
  }

  /** The numbers among the items; empty items are passed over. */
  function ParseItems(items: seq<string>): (r: Option<seq<nat>>)
  {
    if items == [] then Some([])
    else
      var ds :- ParseItems(items[..|items| - 1]);
      if items[|items| - 1] == "" then Some(ds)
      else
        var d :- ParseField(items[|items| - 1]);
        Some(ds + [d])
  }

  /** The record of the fields before the first colon, without dependencies. */
  function ParseInfo(info: seq<string>): (r: Option<Record>)
  {
    if |info| < 5 then None
    else
      var seqNum :- ParseField(info[0]);
      var pc :- ParseField(info[1]);
      var weight :- ParseField(info[2]);
      var kind :- KindOf(info[3]);
      if kind == INVALID then None
      else if IsMemory(kind) then
        if |info| < 8 then None
        else
          var pAddr :- ParseField(info[4]);
          var size :- ParseField(info[5]);
          var flags :- ParseField(info[6]);
          var delay :- ParseField(info[7]);
          Some(Record(seqNum, kind, Some(pAddr), Some(size), Some(flags), [], delay, [],
                      Some(weight), Some(pc), None, None))
      else
        var delay :- ParseField(info[4]);
        Some(Record(seqNum, kind, None, None, None, [], delay, [], Some(weight), Some(pc), None, None))
  }

  /** The record of a line; a malformed line, or a value its field cannot hold, gives none. */
  function Parse(line: string): (r: Option<Record>)
  {
    var parts := Split(Strip(line), ':');
    if |parts| != 3 then None
    else
      var info :- ParseInfo(Split(parts[0], ','));
      var rob :- ParseItems(Split(Strip(parts[1]), ','));
      var reg :- ParseItems(Split(parts[2], ','));
      var rec := info.(robDep := rob, regDep := reg);
      if InRange(rec) then Some(rec) else None
  }

  /** A part that does not parse makes the whole list fail. */
  lemma {:induction false} ItemsPrefix(items: seq<string>, n: nat)
    requires n <= |items| && ParseItems(items[..n]) == None
    ensures ParseItems(items) == None
    decreases |items|
  {
    if n == |items| {
      assert items[..n] == items;
    } else {
      assert items[..|items| - 1][..n] == items[..n];
      ItemsPrefix(items[..|items| - 1], n);
    }
  }

  method ParseList(items: seq<string>) returns (r: Option<seq<nat>>)
    ensures r == ParseItems(items)
  {
    var ds: seq<nat> := [];
    for i := 0 to |items|
      invariant ParseItems(items[..i]) == Some(ds)
    {
      assert items[..i + 1][..i] == items[..i];
      if items[i] != "" {
        var d := ParseField(items[i]);
        if d.None? {
          ItemsPrefix(items, i + 1);
          return None;
        }
        ds := ds + [d.value];
      }
    }
    assert items[..|items|] == items;
    r := Some(ds);
  }

  /** Parses a line, field by field. */
  method ParseLine(line: string) returns (r: Option<Record>)
    ensures r == Parse(line)
  {
    var parts := Split(Strip(line), ':');
    if |parts| != 3 { return None; }
    var info := ParseInfo(Split(parts[0], ','));
    if info.None? { return None; }
    var rob := ParseList(Split(Strip(parts[1]), ','));
    if rob.None? { return None; }
    var reg := ParseList(Split(parts[2], ','));
    if reg.None? { return None; }
    var rec := info.value.(robDep := rob.value, regDep := reg.value);
    r := if InRange(rec) then Some(rec) else None;
  }

  /* ---- round trips ---- */

  /** The record with the defaults filled in that printing makes explicit, and without the two
      fields that are not printed. */
  function Normalized(r: Record): (n: Record)
  {
    r.(pc := Some(OrDefault(r.pc, 0)), weight := Some(OrDefault(r.weight, 1)), vAddr := None, asid := None)
  }

  /** Address, size and flags are present exactly for loads and stores. */
  ghost predicate Printable(r: Record) {
    || ((r.kind == LOAD || r.kind == STORE) && r.pAddr.Some? && r.size.Some? && r.flags.Some?)
    || (r.kind == COMP && r.pAddr.None? && r.size.None? && r.flags.None?)
  }

  lemma KindRoundTrip(k: Kind)
    ensures KindOf(NameOf(k)) == Some(k)
    ensures ',' !in NameOf(k) && ':' !in NameOf(k) && '\n' !in NameOf(k)
  {
  }

  lemma InfoFieldsFree(r: Record, c: char)
    requires c == ',' || c == ':' || c == '\n'
    ensures Free(InfoFields(r), c)
  {
    KindRoundTrip(r.kind);
    forall n: nat ensures c !in Digits(n) { DigitsFree(n, c); }
  }

  lemma DepTextFree(ds: seq<nat>, c: char)
    requires c == ':' || c == '\n'
    ensures c !in DepText(ds)
  {
    forall n: nat ensures c !in Digits(n) { DigitsFree(n, c); }
    JoinCharacters([""] + DigitsAll(ds), ',', c);
  }

  function Optional(r: Record): (fs: seq<string>)
  {
    Field(r.pAddr) + Field(r.size) + Field(r.flags)
  }

  /** The optional fields come between the leading ones and the delay. */
  lemma InfoLayout(r: Record)
    ensures var fs, opt := InfoFields(r), Optional(r);
            && |fs| == 5 + |opt| && fs[4..4 + |opt|] == opt && fs[4 + |opt|] == Digits(r.compDelay)
            && fs[0] == Digits(r.seqNum) && fs[1] == Digits(OrDefault(r.pc, 0))
            && fs[2] == Digits(OrDefault(r.weight, 1)) && fs[3] == NameOf(r.kind)
  {
  }

  /** The fields that are always printed parse to what was printed. */
  lemma InfoParsed(r: Record)
    ensures var fs, opt := InfoFields(r), Optional(r);
            && |fs| == 5 + |opt|
            && ParseField(fs[0]) == Some(r.seqNum) && ParseField(fs[1]) == Some(OrDefault(r.pc, 0))
            && ParseField(fs[2]) == Some(OrDefault(r.weight, 1)) && KindOf(fs[3]) == Some(r.kind)
            && ParseField(fs[4 + |opt|]) == Some(r.compDelay)
  {
    InfoLayout(r);
    FieldRoundTrip(r.seqNum);
    FieldRoundTrip(OrDefault(r.pc, 0));
    FieldRoundTrip(OrDefault(r.weight, 1));
    FieldRoundTrip(r.compDelay);
    KindRoundTrip(r.kind);
  }

  lemma MemoryParsed(r: Record)
    requires IsMemory(r.kind) && Printable(r)
    ensures var fs := InfoFields(r);
            && |fs| == 8 && ParseField(fs[4]) == Some(r.pAddr.value)
            && ParseField(fs[5]) == Some(r.size.value) && ParseField(fs[6]) == Some(r.flags.value)
  {
    InfoLayout(r);
    var fs := InfoFields(r);
    assert fs[4..7][0] == fs[4] && fs[4..7][1] == fs[5] && fs[4..7][2] == fs[6];
    FieldRoundTrip(r.pAddr.value);
    FieldRoundTrip(r.size.value);
    FieldRoundTrip(r.flags.value);
  }

  lemma MemoryInfo(r: Record)
    requires IsMemory(r.kind)
    ensures var n := Normalized(r).(robDep := [], regDep := []);
            ParseInfo(InfoFields(r)) == if Printable(r) then Some(n) else None
  {
    InfoParsed(r);
    if Printable(r) { MemoryParsed(r); }
  }

  lemma OtherInfo(r: Record)
    requires !IsMemory(r.kind) && r.kind != INVALID
    ensures var n, p := Normalized(r).(robDep := [], regDep := []), ParseInfo(InfoFields(r));
            if Printable(r) then p == Some(n)
            else p == None || (p.value.pAddr.None? && p.value.size.None? && p.value.flags.None?
                               && p.value.robDep == [] && p.value.regDep == [])
  {
    InfoLayout(r);
    InfoParsed(r);
  }

  /** The fields of a printed record give the record exactly when it is printable. */
  lemma InfoRoundTrip(r: Record)
    ensures var n, p := Normalized(r).(robDep := [], regDep := []), ParseInfo(InfoFields(r));
            && (p == Some(n) <==> Printable(r))
            && (p.Some? ==> p.value.robDep == [] && p.value.regDep == [])
  {
    InfoParsed(r);
    if IsMemory(r.kind) {
      MemoryInfo(r);
    } else if r.kind != INVALID {
      OtherInfo(r);
    }
  }

  lemma ItemsSnoc(items: seq<string>, ds: seq<nat>, item: string, d: nat)
    requires ParseItems(items) == Some(ds) && item != "" && ParseField(item) == Some(d)
    ensures ParseItems(items + [item]) == Some(ds + [d])
  {
    assert (items + [item])[..|items|] == items;
  }

  lemma ItemsStep(ds: seq<nat>, d: nat)
    requires ParseItems([""] + DigitsAll(ds)) == Some(ds)
    ensures ParseItems([""] + DigitsAll(ds) + [Digits(d)]) == Some(ds + [d])
  {
    FieldRoundTrip(d);
    ItemsSnoc([""] + DigitsAll(ds), ds, Digits(d), d);
  }

  lemma DigitsAllSnoc(ds: seq<nat>, d: nat)
    ensures [""] + DigitsAll(ds + [d]) == [""] + DigitsAll(ds) + [Digits(d)]
  {
  }

  lemma NoItems()
    ensures ParseItems([""]) == Some([])
  {
    assert [""][..0] == [];
  }

  lemma {:induction false} ItemsRoundTrip(ds: seq<nat>)
    ensures ParseItems([""] + DigitsAll(ds)) == Some(ds)
  {
    if ds == [] {
      NoItems();
      assert [""] + DigitsAll(ds) == [""];
    } else {
      var a, d := ds[..|ds| - 1], ds[|ds| - 1];
      assert ds == a + [d];
      ItemsRoundTrip(a);
      ItemsStep(a, d);
      DigitsAllSnoc(a, d);
    }
  }

  lemma DepsRoundTrip(ds: seq<nat>)
    ensures ParseItems(Split(DepText(ds), ',')) == Some(ds)
    ensures Strip(DepText(ds)) == DepText(ds)
  {
    forall n: nat ensures ',' !in Digits(n) { DigitsFree(n, ','); }
    SplitJoin([""] + DigitsAll(ds), ',');
    ItemsRoundTrip(ds);
    DepTextEnds(ds);
    StripNone(DepText(ds));
  }

  lemma DepTextEnds(ds: seq<nat>)
    ensures ds == [] ==> DepText(ds) == ""
    ensures ds != [] ==> DepText(ds) != "" && DepText(ds)[0] == ',' && IsDigit(DepText(ds)[|DepText(ds)| - 1])
  {
    if ds != [] {
      var a, d := ds[..|ds| - 1], ds[|ds| - 1];
      assert ds == a + [d];
      DepTextSnoc(a, d);
      var rest := DigitsAll(ds);
      assert ([""] + rest)[1..] == rest;
      assert DepText(ds) == "" + "," + Join(rest, ',');
    }
  }

  lemma ItemsCongruent(a: seq<string>, b: seq<string>, item: string)
    requires ParseItems(a) == ParseItems(b)
    ensures ParseItems(a + [item]) == ParseItems(b + [item])
  {
    assert (a + [item])[..|a|] == a && (b + [item])[..|b|] == b;
  }

  lemma EmptyItemLast(a: seq<string>)
    ensures ParseItems(a + [""]) == ParseItems(a)
  {
    assert (a + [""])[..|a|] == a;
  }

  /** Empty items make no difference. */
  lemma {:induction false} EmptyItemsSkipped(a: seq<string>, b: seq<string>)
    ensures ParseItems(a + [""] + b) == ParseItems(a + b)
  {
    if b == [] {
      EmptyItemLast(a);
      assert a + [""] + b == a + [""] && a + b == a;
    } else {
      var n := |b| - 1;
      EmptyItemsSkipped(a, b[..n]);
      ItemsCongruent(a + [""] + b[..n], a + b[..n], b[n]);
      assert a + [""] + b == a + [""] + b[..n] + [b[n]] && a + b == a + b[..n] + [b[n]];
    }
  }

  /** Fields after those that a record of the kind has are not looked at. */
  lemma FieldsBeyond(info: seq<string>, more: seq<string>)
    requires |info| >= 5 && (|info| >= 8 || KindOf(info[3]) == Some(COMP))
    ensures ParseInfo(info + more) == ParseInfo(info)
  {
    var all := info + more;
    assert all[0] == info[0] && all[1] == info[1] && all[2] == info[2] && all[3] == info[3] && all[4] == info[4];
    assert |info| >= 8 ==> all[5] == info[5] && all[6] == info[6] && all[7] == info[7];
  }

  /** The line splits at its two colons. */
  lemma LineSplits(r: Record)
    ensures Split(Line(r), ':') == [Join(InfoFields(r), ','), DepText(r.robDep), DepText(r.regDep)]
  {
    var a, b, c := Join(InfoFields(r), ','), DepText(r.robDep), DepText(r.regDep);
    InfoFieldsFree(r, ':');
    JoinCharacters(InfoFields(r), ',', ':');
    DepTextFree(r.robDep, ':');
    DepTextFree(r.regDep, ':');
    assert Line(r) == a + ":" + (b + ":" + c);
    SplitFirst(a, ':', b + ":" + c);
    SplitFirst(b, ':', c);
    SplitNone(c, ':');
  }

  lemma LineEnds(r: Record)
    ensures Line(r) != "" && !IsSpace(Line(r)[0]) && !IsSpace(Line(r)[|Line(r)| - 1])
  {
    var fs := InfoFields(r);
    assert Join(fs, ',')[0] == Digits(r.seqNum)[0];
    assert IsDigit(Line(r)[0]);
    DepTextEnds(r.regDep);
  }

  /** Parsing a printed record gives the record, with defaults filled in, exactly when address,
      size and flags are present for loads and stores and for nothing else. */
  lemma LineRoundTrip(r: Record)
    requires InRange(r)
    ensures Parse(Line(r) + "\n") == Some(Normalized(r)) <==> Printable(r)
  {
    LineReads(r);
    InfoRoundTrip(r);
    var n := Normalized(r);
    assert n.(robDep := [], regDep := []).(robDep := r.robDep, regDep := r.regDep) == n;
    if Parse(Line(r) + "\n") == Some(n) {
      var info := ParseInfo(InfoFields(r)).value;
      assert info == n.(robDep := [], regDep := []);
    }
  }

  /** A printed line is parsed through its fields and its dependencies. */
  lemma LineReads(r: Record)
    ensures var info := ParseInfo(InfoFields(r));
            Parse(Line(r) + "\n") ==
            if info.None? then None
            else
              var rec := info.value.(robDep := r.robDep, regDep := r.regDep);
              if InRange(rec) then Some(rec) else None
  {
    LineEnds(r);
    StripNewline(Line(r));
    LineSplits(r);
    InfoFieldsFree(r, ',');
    SplitJoin(InfoFields(r), ',');
    DepsRoundTrip(r.robDep);
    DepsRoundTrip(r.regDep);
  }

  /** A printable record is read back if and only if its fields hold what their message types can. Of
      what is read back every printed field is the one of the record; a missing program counter is
      read as 0 and a missing weight as 1. */
  lemma FieldsReadBack(r: Record)
    requires Printable(r)
    ensures var p := Parse(Line(r) + "\n");
            && (p.Some? <==>
                && r.seqNum < 0x1_0000_0000_0000_0000 && r.compDelay < 0x1_0000_0000_0000_0000
                && (r.pc.Some? ==> r.pc.value < 0x1_0000_0000_0000_0000)
                && (r.weight.Some? ==> r.weight.value < 0x1_0000_0000)
                && (r.pAddr.Some? ==> r.pAddr.value < 0x1_0000_0000_0000_0000)
                && (r.size.Some? ==> r.size.value < 0x1_0000_0000)
                && (r.flags.Some? ==> r.flags.value < 0x1_0000_0000)
                && (forall i :: 0 <= i < |r.robDep| ==> r.robDep[i] < 0x1_0000_0000_0000_0000)
                && (forall i :: 0 <= i < |r.regDep| ==> r.regDep[i] < 0x1_0000_0000_0000_0000))
            && (p.Some? ==>
                && p.value.seqNum == r.seqNum && p.value.kind == r.kind && p.value.compDelay == r.compDelay
                && p.value.pAddr == r.pAddr && p.value.size == r.size && p.value.flags == r.flags
                && p.value.robDep == r.robDep && p.value.regDep == r.regDep
                && p.value.pc == Some(if r.pc.Some? then r.pc.value else 0)
                && p.value.weight == Some(if r.weight.Some? then r.weight.value else 1))
  {
    LineReadsAs(r);
  }

  lemma LineReadsAs(r: Record)
    requires Printable(r)
    ensures Parse(Line(r) + "\n") == if InRange(Normalized(r)) then Some(Normalized(r)) else None
  {
    LineReads(r);
    InfoRoundTrip(r);
    var n := Normalized(r);
    assert n.(robDep := [], regDep := []).(robDep := r.robDep, regDep := r.regDep) == n;
  }

  /* ---- the text of a line ---- */

  lemma JoinFive(a: string, b: string, c: string, d: string, e: string)
    ensures Join([a, b, c, d, e], ',') == a + "," + b + "," + c + "," + d + "," + e
  {
    assert [a] + [b] == [a, b] && [a, b] + [c] == [a, b, c];
    assert [a, b, c] + [d] == [a, b, c, d] && [a, b, c, d] + [e] == [a, b, c, d, e];
    JoinSnoc([a], b, ',');
    JoinSnoc([a, b], c, ',');
    JoinSnoc([a, b, c], d, ',');
    JoinSnoc([a, b, c, d], e, ',');
  }

  lemma JoinThreeMore(fs: seq<string>, f: string, g: string, h: string)
    requires fs != []
    ensures Join(fs + [f, g, h], ',') == Join(fs, ',') + "," + f + "," + g + "," + h
  {
    assert fs + [f] + [g] + [h] == fs + [f, g, h];
    JoinSnoc(fs, f, ',');
    JoinSnoc(fs + [f], g, ',');
    JoinSnoc(fs + [f] + [g], h, ',');
  }

  /** The line of a computation. */
  lemma CompLine(r: Record)
    requires r.kind == COMP && r.pAddr.None? && r.size.None? && r.flags.None?
    ensures Line(r) ==
            Digits(r.seqNum) + "," + (if r.pc.Some? then Digits(r.pc.value) else "0")
            + "," + (if r.weight.Some? then Digits(r.weight.value) else "1")
            + "," + "COMP" + "," + Digits(r.compDelay) + ":" + DepText(r.robDep) + ":" + DepText(r.regDep)
  {
    var fs := InfoFields(r);
    assert fs == [fs[0], fs[1], fs[2], fs[3], fs[4]];
    JoinFive(fs[0], fs[1], fs[2], fs[3], fs[4]);
  }

  /** The line of a load or a store. */
  lemma MemoryLine(r: Record)
    requires (r.kind == LOAD || r.kind == STORE) && r.pAddr.Some? && r.size.Some? && r.flags.Some?
    ensures Line(r) ==
            Digits(r.seqNum) + "," + (if r.pc.Some? then Digits(r.pc.value) else "0")
            + "," + (if r.weight.Some? then Digits(r.weight.value) else "1")
            + "," + (if r.kind == LOAD then "LOAD" else "STORE")
            + "," + Digits(r.pAddr.value) + "," + Digits(r.size.value) + "," + Digits(r.flags.value)
            + "," + Digits(r.compDelay) + ":" + DepText(r.robDep) + ":" + DepText(r.regDep)
  {
    var fs := InfoFields(r);
    assert fs == [fs[0], fs[1], fs[2], fs[3], fs[4]] + [fs[5], fs[6], fs[7]];
    JoinFive(fs[0], fs[1], fs[2], fs[3], fs[4]);
    JoinThreeMore([fs[0], fs[1], fs[2], fs[3], fs[4]], fs[5], fs[6], fs[7]);
  }

  /** The printed form does not depend on the fields that printing fills in or leaves out. */
  lemma NormalizedPrintsSame(r: Record)
    ensures Line(Normalized(r)) == Line(r)
  {
  }

  /* ---- whole texts ---- */

  function LineAll(rs: seq<Record>): (ls: seq<string>)
    ensures |ls| == |rs| && forall i :: 0 <= i < |rs| ==> ls[i] == Line(rs[i])
  {
    seq(|rs|, i requires 0 <= i < |rs| => Line(rs[i]))
  }

  function PrintAll(rs: seq<Record>): (s: string) { Unlines(LineAll(rs)) }

  const PARSE: string -> Option<Record> := (line: string) => Parse(line)

  /** The records of the lines, if every line parses. */
  function ParseLines(lines: seq<string>): (r: Option<seq<Record>>) { Each(PARSE, lines) }

  function NormalizedAll(rs: seq<Record>): (ns: seq<Record>)
    ensures |ns| == |rs| && forall i :: 0 <= i < |rs| ==> ns[i] == Normalized(rs[i])
  {
    seq(|rs|, i requires 0 <= i < |rs| => Normalized(rs[i]))
  }

  lemma LineFree(r: Record)
    ensures '\n' !in Line(r)
  {
    InfoFieldsFree(r, '\n');
    JoinCharacters(InfoFields(r), ',', '\n');
    DepTextFree(r.robDep, '\n');
    DepTextFree(r.regDep, '\n');
  }

  lemma ParseLinesOf(rs: seq<Record>, lines: seq<string>)
    requires lines == Terminated(LineAll(rs))
    requires forall i :: 0 <= i < |rs| ==> InRange(rs[i]) && Printable(rs[i])
    ensures ParseLines(lines) == Some(NormalizedAll(rs))
  {
    forall i | 0 <= i < |rs| ensures PARSE(lines[i]) == Some(NormalizedAll(rs)[i]) {
      LineRoundTrip(rs[i]);
    }
    EachSome(PARSE, lines, NormalizedAll(rs));
  }

  /** A printed trace parses back to its records with the defaults filled in. */
  lemma TextRoundTrip(rs: seq<Record>)
    requires forall i :: 0 <= i < |rs| ==> InRange(rs[i]) && Printable(rs[i])
    ensures ParseLines(Lines(PrintAll(rs))) == Some(NormalizedAll(rs))
  {
    forall i | 0 <= i < |rs| ensures '\n' !in LineAll(rs)[i] { LineFree(rs[i]); }
    LinesUnlines(LineAll(rs));
    ParseLinesOf(rs, Lines(PrintAll(rs)));
  }

  lemma NormalizedPrintsSameAll(rs: seq<Record>)
    ensures PrintAll(NormalizedAll(rs)) == PrintAll(rs)
  {
    forall i | 0 <= i < |rs| ensures Line(Normalized(rs[i])) == Line(rs[i]) {
      NormalizedPrintsSame(rs[i]);
    }
    assert LineAll(NormalizedAll(rs)) == LineAll(rs);
  }
}
