/**
 Merging checkpoints: the memory images are put one after the other, page by page, and the
 sections of the CPUs are renamed and their physical addresses moved to where their pages went.
 */
module CheckpointMerge {
  import opened Wrappers
  import opened Text
  import opened SectionNames
  import Varint
  import Protolib

  type Byte = Varint.Byte

  const PAGE: nat := 4096
  /** Padding pages are filled with the character "0". */
  const PAD: Byte := 48
  const STORE := "system.physmem.store0"

  datatype Section = Section(name: string, items: map<string, string>)

  /** `pages` is the page pointer of the "system" section and `curTick` the tick of the "Globals"
      section, if there is one; `sections` are the other sections. */
  datatype Checkpoint = Checkpoint(sections: seq<Section>, pages: nat, curTick: Option<nat>, image: seq<Byte>)

  datatype Merged = Merged(sections: seq<Section>, image: seq<Byte>)

  /* ---- memory ---- */

  /** The number of the first page of what comes after the checkpoints `cs`. */
  function PageCount(cs: seq<Checkpoint>): (n: nat)
  {
    if cs == [] then 0 else PageCount(cs[..|cs| - 1]) + cs[|cs| - 1].pages
  }

  /** What reading the pages of `c` gives: its image, up to its number of pages. */
  function Taken(c: Checkpoint): (r: seq<Byte>)
  {
    if PAGE * c.pages <= |c.image| then c.image[..PAGE * c.pages] else c.image
  }

  function Memory(cs: seq<Checkpoint>): (r: seq<Byte>)
  {
    if cs == [] then [] else Memory(cs[..|cs| - 1]) + Taken(cs[|cs| - 1])
  }

  ghost predicate Complete(c: Checkpoint) { PAGE * c.pages <= |c.image| }

  /** How many pages there are after padding to `memorySize`. */
  function PaddedPages(pages: nat, memorySize: int): (r: nat)
    ensures r >= pages && PAGE * r >= memorySize
    ensures r > pages ==> PAGE * (r - 1) < memorySize
  {
    if PAGE * pages >= memorySize then pages else (memorySize + PAGE - 1) / PAGE
  }

  function Padding(pages: nat): (r: seq<Byte>)
    ensures |r| == PAGE * pages
  {
    seq(PAGE * pages, _ => PAD)
  }

  lemma {:induction false} MemoryLength(cs: seq<Checkpoint>)
    ensures |Memory(cs)| <= PAGE * PageCount(cs)
    ensures |Memory(cs)| == PAGE * PageCount(cs) <==> forall i :: 0 <= i < |cs| ==> Complete(cs[i])
  {
    if cs == [] {
    } else {
      var a, c := cs[..|cs| - 1], cs[|cs| - 1];
      MemoryLength(a);
      TakenLength(c);
      assert |Memory(cs)| == |Memory(a)| + |Taken(c)| && PageCount(cs) == PageCount(a) + c.pages;
      assert forall i :: 0 <= i < |a| ==> a[i] == cs[i];
    }
  }

  lemma TakenLength(c: Checkpoint)
    ensures |Taken(c)| <= PAGE * c.pages
    ensures |Taken(c)| == PAGE * c.pages <==> Complete(c)
  {
  }

  lemma {:induction false} MemoryPrefix(cs: seq<Checkpoint>, i: nat)
    requires i <= |cs|
    ensures Memory(cs[..i]) <= Memory(cs)
    decreases |cs|
  {
    if i == |cs| {
      assert cs[..i] == cs;
    } else {
      MemoryPrefix(cs[..|cs| - 1], i);
      assert cs[..|cs| - 1][..i] == cs[..i];
    }
  }

  /** Every taken byte of checkpoint `i` is found behind what was taken of the checkpoints before
      it. That is behind their pages exactly when they are complete. */
  lemma {:induction false} MemoryByte(cs: seq<Checkpoint>, i: nat, a: nat)
    requires i < |cs| && a < |Taken(cs[i])|
    ensures var at := |Memory(cs[..i])| + a;
            && at < |Memory(cs)| && Memory(cs)[at] == cs[i].image[a]
            && at <= PAGE * PageCount(cs[..i]) + a
            && (at == PAGE * PageCount(cs[..i]) + a <==> forall j :: 0 <= j < i ==> Complete(cs[j]))
  {
    MemoryLength(cs[..i]);
    assert forall j :: 0 <= j < i ==> cs[..i][j] == cs[j];
    ByteBehind(cs, i, a);
  }

  lemma MemoryNext(cs: seq<Checkpoint>, i: nat)
    requires i < |cs|
    ensures Memory(cs[..i + 1]) == Memory(cs[..i]) + Taken(cs[i])
  {
    assert cs[..i + 1][..i] == cs[..i];
  }

  lemma {:induction false} ByteBehind(cs: seq<Checkpoint>, i: nat, a: nat)
    requires i < |cs| && a < |Taken(cs[i])|
    ensures |Memory(cs[..i])| + a < |Memory(cs)| && Memory(cs)[|Memory(cs[..i])| + a] == cs[i].image[a]
  {
    MemoryPrefix(cs, i + 1);
    MemoryNext(cs, i);
    InPrefix(Memory(cs), Memory(cs[..i]), Taken(cs[i]), a);
    assert Taken(cs[i])[a] == cs[i].image[a];
  }

  lemma InPrefix<T>(whole: seq<T>, a: seq<T>, b: seq<T>, k: nat)
    requires a + b <= whole && k < |b|
    ensures |a| + k < |whole| && whole[|a| + k] == b[k]
  {
    assert whole[..|a + b|] == a + b;
    assert whole[|a| + k] == (a + b)[|a| + k];
  }

  lemma {:induction false} PageCountMonotone(cs: seq<Checkpoint>, i: nat, j: nat)
    requires i < j <= |cs|
    ensures PageCount(cs[..i]) + cs[i].pages <= PageCount(cs[..j])
  {
    var a := cs[..j];
    assert a[..j - 1] == cs[..j - 1];
    if i == j - 1 {
    } else {
      PageCountMonotone(cs, i, j - 1);
    }
  }

  /** Pages of different checkpoints do not overlap. */
  lemma RegionsDisjoint(cs: seq<Checkpoint>, i: nat, j: nat, a: nat, b: nat)
    requires i < j < |cs| && a < PAGE * cs[i].pages
    ensures PAGE * PageCount(cs[..i]) + a < PAGE * PageCount(cs[..j]) + b
  {
    PageCountMonotone(cs, i, j);
  }

  /* ---- sections ---- */

  /** The items with the physical address, if any, moved by `base` pages. */
  function Relocated(items: map<string, string>, base: nat): (r: Option<map<string, string>>)
  {
    if "paddr" in items then
      var p :- ParseInt(items["paddr"]);
      Some(items["paddr" := PrintInt(p + PAGE * base)])
    else Some(items)
  }

  /** The name ends in "workload.FdMap256", where the dot may be any character. */
  predicate IsFdMap(s: string) {
    |s| >= 17 && s[|s| - 17..|s| - 9] == "workload" && s[|s| - 8..] == "FdMap256"
  }

  /** The names of the file descriptor sections. */
  lemma IsFdMapIff(s: string)
    ensures IsFdMap(s) <==> exists a: string, c: char :: s == a + "workload" + [c] + "FdMap256"
  {
    if IsFdMap(s) {
      var n := |s| - 17;
      assert s == s[..n] + s[n..n + 8] + [s[n + 8]] + s[n + 9..];
    }
    if a: string, c: char :| s == a + "workload" + [c] + "FdMap256" {
      assert s[|a|..|a| + 8] == "workload" && s[|a| + 9..] == "FdMap256";
    }
  }

  /** What section `sec` of checkpoint `i` of `count` becomes: CPU sections are renamed, the others
      are taken from the last checkpoint only. */
  function MergedSection(count: nat, i: nat, base: nat, sec: Section): (r: Option<seq<Section>>)
    requires i < count
  {
    if HasCpu(sec.name) then
      var items :- Relocated(sec.items, base);
      Some([Section(NewName(count, i, sec.name),
                    if IsFdMap(sec.name) then items["M5_pid" := Digits(i)] else items)])
    else if i == count - 1 then Some([sec])
    else Some([])
  }

  function MergedSections(count: nat, i: nat, base: nat, secs: seq<Section>): (r: Option<seq<Section>>)
    requires i < count
  {
    if secs == [] then Some([])
    else
      var a :- MergedSections(count, i, base, secs[..|secs| - 1]);
      var b :- MergedSection(count, i, base, secs[|secs| - 1]);
      Some(a + b)
  }

  /** The sections written for the first `n` checkpoints. */
  function Config(cs: seq<Checkpoint>, n: nat): (r: Option<seq<Section>>)
    requires n <= |cs|
  {
    if n == 0 then Some([])
    else
      var a :- Config(cs, n - 1);
      var b :- MergedSections(|cs|, n - 1, PageCount(cs[..n - 1]), cs[n - 1].sections);
      Some(a + b)
  }

  function MaxTick(cs: seq<Checkpoint>): (t: nat)
  {
    if cs == [] then 0
    else
      var t, c := MaxTick(cs[..|cs| - 1]), cs[|cs| - 1];
      if c.curTick.Some? && c.curTick.value > t then c.curTick.value else t
  }

  /** Sets an item of the first section called `name`; there must be one. */
  function SetItem(secs: seq<Section>, name: string, key: string, value: string): (r: Option<seq<Section>>)
  {
    if secs == [] then None
    else if secs[0].name == name then
      Some([secs[0].(items := secs[0].items[key := value])] + secs[1..])
    else
      var rest :- SetItem(secs[1..], name, key, value);
      Some([secs[0]] + rest)
  }

  function SystemSection(pages: nat, count: nat): (s: Section)
  {
    Section("system", map["pagePtr" := Digits(pages), "nextPID" := Digits(count)])
  }

  function GlobalsSection(tick: nat): (s: Section) { Section("Globals", map["curTick" := Digits(tick)]) }

  /** The merged checkpoint; none if an address is not a number or the memory section is missing. */
  function Merge(cs: seq<Checkpoint>, memorySize: int): (r: Option<Merged>)
  {
    var pages := PageCount(cs);
    var padded := PaddedPages(pages, memorySize);
    var secs :- Config(cs, |cs|);
    var sized :- SetItem(secs + [SystemSection(pages, |cs|)], STORE, "range_size", Digits(PAGE * padded));
    Some(Merged(sized + [GlobalsSection(MaxTick(cs))], Memory(cs) + Padding(padded - pages)))
  }

  /* ---- what merging guarantees ---- */

  /** Section `s` is called `name` and holds the number `n` under `key`. */
  ghost predicate Records(s: Section, name: string, key: string, n: nat) {
    s.name == name && key in s.items && ParseInt(s.items[key]) == Some(n)
  }

  lemma RecordedIn(s: Section, key: string, n: nat)
    requires key in s.items && s.items[key] == Digits(n)
    ensures Records(s, s.name, key, n)
  {
    IntRoundTrip(n);
  }

  lemma {:induction false} MergedImage(cs: seq<Checkpoint>, memorySize: int)
    requires Merge(cs, memorySize).Some?
    ensures Merge(cs, memorySize).value.image
            == Memory(cs) + Padding(PaddedPages(PageCount(cs), memorySize) - PageCount(cs))
    ensures Memory(cs) <= Merge(cs, memorySize).value.image
  {
  }

  /** The memory section records a size, which is the length of the merged image exactly when every
      checkpoint brings all the pages it counts. */
  lemma {:induction false} SizeIsLength(cs: seq<Checkpoint>, memorySize: int) returns (store: Section)
    requires Merge(cs, memorySize).Some?
    ensures var m, size := Merge(cs, memorySize).value, 4096 * PaddedPages(PageCount(cs), memorySize);
            && store in m.sections && Records(store, "system.physmem.store0", "range_size", size)
            && (|m.image| == size <==> forall i :: 0 <= i < |cs| ==> Complete(cs[i]))
  {
    MemoryLength(cs);
    store := SizeRecorded(cs, memorySize);
    RecordedIn(store, "range_size", PAGE * PaddedPages(PageCount(cs), memorySize));
  }

  lemma {:induction false} SizeRecorded(cs: seq<Checkpoint>, memorySize: int) returns (s: Section)
    requires Merge(cs, memorySize).Some?
    ensures s in Merge(cs, memorySize).value.sections && s.name == STORE && "range_size" in s.items
    ensures s.items["range_size"] == Digits(PAGE * PaddedPages(PageCount(cs), memorySize))
  {
    var size := PAGE * PaddedPages(PageCount(cs), memorySize);
    var secs := Config(cs, |cs|).value + [SystemSection(PageCount(cs), |cs|)];
    SetItemFacts(secs, STORE, "range_size", Digits(size));
    var r := SetItem(secs, STORE, "range_size", Digits(size)).value;
    var k :| 0 <= k < |r| && r[k].name == STORE
             && "range_size" in r[k].items && r[k].items["range_size"] == Digits(size);
    s := r[k];
  }

  /** The page count, the number of processes and the latest tick are recorded. */
  lemma {:induction false} TotalsRecorded(cs: seq<Checkpoint>, memorySize: int) returns (sys: Section, glob: Section)
    requires Merge(cs, memorySize).Some?
    ensures sys in Merge(cs, memorySize).value.sections && glob in Merge(cs, memorySize).value.sections
    ensures Records(sys, "system", "pagePtr", PageCount(cs)) && Records(sys, "system", "nextPID", |cs|)
    ensures Records(glob, "Globals", "curTick", MaxTick(cs))
  {
    TotalsMerged(cs, memorySize);
    sys, glob := SystemSection(PageCount(cs), |cs|), GlobalsSection(MaxTick(cs));
    RecordedIn(sys, "pagePtr", PageCount(cs));
    RecordedIn(sys, "nextPID", |cs|);
    RecordedIn(glob, "curTick", MaxTick(cs));
  }

  lemma TotalsMerged(cs: seq<Checkpoint>, memorySize: int)
    requires Merge(cs, memorySize).Some?
    ensures SystemSection(PageCount(cs), |cs|) in Merge(cs, memorySize).value.sections
    ensures GlobalsSection(MaxTick(cs)) in Merge(cs, memorySize).value.sections
  {
    var size, sys := PAGE * PaddedPages(PageCount(cs), memorySize), SystemSection(PageCount(cs), |cs|);
    SetItemKeeps(Config(cs, |cs|).value + [sys], STORE, "range_size", Digits(size), sys);
  }

  lemma {:induction false} SetItemFacts(secs: seq<Section>, name: string, key: string, value: string)
    requires SetItem(secs, name, key, value).Some?
    ensures var r := SetItem(secs, name, key, value).value;
            && |r| == |secs|
            && (forall k :: 0 <= k < |r| ==> r[k].name == secs[k].name)
            && (forall k :: 0 <= k < |r| && secs[k].name != name ==> r[k] == secs[k])
            && HasItem(r, name, key, value)
  {
    var r := SetItem(secs, name, key, value).value;
    if secs[0].name == name {
      assert r[0].items[key] == value;
    } else {
      SetItemFacts(secs[1..], name, key, value);
      var q := SetItem(secs[1..], name, key, value).value;
      assert r == [secs[0]] + q;
      ItemBehind(secs[0], q, name, key, value);
    }
  }

  ghost predicate HasItem(secs: seq<Section>, name: string, key: string, value: string) {
    exists k :: 0 <= k < |secs| && secs[k].name == name && key in secs[k].items && secs[k].items[key] == value
  }

  lemma ItemBehind(s: Section, secs: seq<Section>, name: string, key: string, value: string)
    requires HasItem(secs, name, key, value)
    ensures HasItem([s] + secs, name, key, value)
  {
    var k :| 0 <= k < |secs| && secs[k].name == name && key in secs[k].items && secs[k].items[key] == value;
    assert ([s] + secs)[k + 1] == secs[k];
  }

  lemma {:induction false} MergedSectionIn(count: nat, i: nat, base: nat, secs: seq<Section>, k: nat)
    requires i < count && MergedSections(count, i, base, secs).Some? && k < |secs|
    ensures MergedSection(count, i, base, secs[k]).Some?
    ensures forall s :: s in MergedSection(count, i, base, secs[k]).value ==>
                          s in MergedSections(count, i, base, secs).value
    decreases |secs|
  {
    if k == |secs| - 1 {
    } else {
      MergedSectionIn(count, i, base, secs[..|secs| - 1], k);
    }
  }

  lemma {:induction false} ConfigHolds(cs: seq<Checkpoint>, n: nat, i: nat)
    requires i < n <= |cs| && Config(cs, n).Some?
    ensures var part := MergedSections(|cs|, i, PageCount(cs[..i]), cs[i].sections);
            part.Some? && forall s :: s in part.value ==> s in Config(cs, n).value
    decreases n
  {
    if i == n - 1 {
    } else {
      ConfigHolds(cs, n - 1, i);
    }
  }

  /** The merged checkpoint has the renamed section, with the address moved by the pages of the
      checkpoints before it. The merged image holds the byte of the old address behind what was
      taken of those checkpoints; the new address points at it exactly when they are complete. */
  lemma {:induction false} AddressesFollow(
      cs: seq<Checkpoint>, memorySize: int, i: nat, sec: Section, p: nat) returns (s: Section)
    requires Merge(cs, memorySize).Some? && i < |cs| && sec in cs[i].sections
    requires HasCpu(sec.name) && "paddr" in sec.items && ParseInt(sec.items["paddr"]) == Some(p)
    requires p < |Taken(cs[i])|
    ensures var m, q, at := Merge(cs, memorySize).value, p + 4096 * PageCount(cs[..i]), p + |Memory(cs[..i])|;
            && s in m.sections && Records(s, NewName(|cs|, i, sec.name), "paddr", q)
            && at < |m.image| && m.image[at] == cs[i].image[p]
            && (q == at <==> forall j :: 0 <= j < i ==> Complete(cs[j]))
  {
    s := CpuSectionMerged(cs, memorySize, i, sec);
    RelocatedAddress(|cs|, i, PageCount(cs[..i]), sec, p, s);
    RecordedIn(s, "paddr", p + PAGE * PageCount(cs[..i]));
    ByteMerged(cs, memorySize, i, p);
  }

  lemma {:induction false} ByteMerged(cs: seq<Checkpoint>, memorySize: int, i: nat, p: nat)
    requires Merge(cs, memorySize).Some? && i < |cs| && p < |Taken(cs[i])|
    ensures var image, at := Merge(cs, memorySize).value.image, p + |Memory(cs[..i])|;
            && at < |image| && image[at] == cs[i].image[p]
            && (p + PAGE * PageCount(cs[..i]) == at <==> forall j :: 0 <= j < i ==> Complete(cs[j]))
  {
    MemoryByte(cs, i, p);
    MergedImage(cs, memorySize);
    InFront(Memory(cs), Merge(cs, memorySize).value.image, |Memory(cs[..i])| + p);
  }

  lemma RelocatedAddress(count: nat, i: nat, base: nat, sec: Section, p: nat, s: Section)
    requires i < count && HasCpu(sec.name) && "paddr" in sec.items && ParseInt(sec.items["paddr"]) == Some(p)
    requires MergedSection(count, i, base, sec) == Some([s])
    ensures "paddr" in s.items && s.items["paddr"] == Digits(p + PAGE * base)
  {
    assert Relocated(sec.items, base) == Some(sec.items["paddr" := PrintInt(p + PAGE * base)]);
  }

  lemma InFront<T>(a: seq<T>, whole: seq<T>, k: nat)
    requires a <= whole && k < |a|
    ensures whole[k] == a[k]
  {
  }

  /** What a section becomes is in the merged checkpoint, the memory section with a new size. */
  lemma SectionMerged(cs: seq<Checkpoint>, memorySize: int, i: nat, sec: Section)
    requires Merge(cs, memorySize).Some? && i < |cs| && sec in cs[i].sections
    ensures var r := MergedSection(|cs|, i, PageCount(cs[..i]), sec);
            r.Some? && forall s :: s in r.value && s.name != STORE ==> s in Merge(cs, memorySize).value.sections
  {
    var k :| 0 <= k < |cs[i].sections| && cs[i].sections[k] == sec;
    ConfigHolds(cs, |cs|, i);
    MergedSectionIn(|cs|, i, PageCount(cs[..i]), cs[i].sections, k);
    forall s | s in MergedSection(|cs|, i, PageCount(cs[..i]), sec).value && s.name != STORE
      ensures s in Merge(cs, memorySize).value.sections
    {
      SurvivesSizing(cs, memorySize, s);
    }
  }

  lemma CpuSectionMerged(cs: seq<Checkpoint>, memorySize: int, i: nat, sec: Section) returns (s: Section)
    requires Merge(cs, memorySize).Some? && i < |cs| && sec in cs[i].sections && HasCpu(sec.name)
    ensures MergedSection(|cs|, i, PageCount(cs[..i]), sec) == Some([s])
    ensures s in Merge(cs, memorySize).value.sections && s.name == NewName(|cs|, i, sec.name)
  {
    SectionMerged(cs, memorySize, i, sec);
    s := MergedSection(|cs|, i, PageCount(cs[..i]), sec).value[0];
    CpuNameIsNotStore(|cs|, i, sec.name);
    assert s in MergedSection(|cs|, i, PageCount(cs[..i]), sec).value;
  }

  /** A CPU section keeps all its other items under its new name, and the file descriptors of each
      checkpoint get their own process number. */
  lemma {:induction false} ItemsKept(cs: seq<Checkpoint>, memorySize: int, i: nat, sec: Section) returns (s: Section)
    requires Merge(cs, memorySize).Some? && i < |cs| && sec in cs[i].sections && HasCpu(sec.name)
    ensures s in Merge(cs, memorySize).value.sections && s.name == NewName(|cs|, i, sec.name)
    ensures forall key :: key in sec.items && key != "paddr" && (key != "M5_pid" || !IsFdMap(sec.name)) ==>
                            key in s.items && s.items[key] == sec.items[key]
    ensures forall key :: key in s.items ==> key in sec.items || (IsFdMap(sec.name) && key == "M5_pid")
    ensures IsFdMap(sec.name) ==> "M5_pid" in s.items && ParseInt(s.items["M5_pid"]) == Some(i)
  {
    s := CpuSectionMerged(cs, memorySize, i, sec);
    assert Relocated(sec.items, PageCount(cs[..i])).value.Keys == sec.items.Keys;
    IntRoundTrip(i);
  }

  /** A section whose name has one "cpu" is in the merged checkpoint with the index of its checkpoint
      in its name. */
  lemma {:induction false} CpuSectionNamed(
      cs: seq<Checkpoint>, memorySize: int, i: nat, sec: Section, a: string, b: string) returns (s: Section)
    requires Merge(cs, memorySize).Some? && i < |cs| && sec in cs[i].sections
    requires sec.name == a + "cpu" + b && !HasCpu(a) && !HasCpu(b)
    ensures s in Merge(cs, memorySize).value.sections
    ensures s.name == a + "cpu" + Zfill(i, |Digits(|cs| - 1)|) + b
    ensures MergedSection(|cs|, i, PageCount(cs[..i]), sec) == Some([s])
  {
    NewNameOfOne(|cs|, i, a, b);
    s := CpuSectionMerged(cs, memorySize, i, sec);
  }

  /** Its address is moved by the pages of the checkpoints before its own. */
  lemma {:induction false} CpuAddressMoved(
      cs: seq<Checkpoint>, memorySize: int, i: nat, sec: Section, a: string, b: string, p: nat) returns (s: Section)
    requires Merge(cs, memorySize).Some? && i < |cs| && sec in cs[i].sections
    requires sec.name == a + "cpu" + b && !HasCpu(a) && !HasCpu(b)
    requires "paddr" in sec.items && ParseInt(sec.items["paddr"]) == Some(p)
    ensures s in Merge(cs, memorySize).value.sections
    ensures Records(s, a + "cpu" + Zfill(i, |Digits(|cs| - 1)|) + b, "paddr", p + 4096 * PageCount(cs[..i]))
  {
    NewNameOfOne(|cs|, i, a, b);
    s := CpuSectionNamed(cs, memorySize, i, sec, a, b);
    RelocatedAddress(|cs|, i, PageCount(cs[..i]), sec, p, s);
    RecordedIn(s, "paddr", p + PAGE * PageCount(cs[..i]));
  }

  /** The file descriptors of a CPU get the index of their checkpoint for a process number. */
  lemma {:induction false} FdMapNumbered(cs: seq<Checkpoint>, memorySize: int, i: nat, sec: Section, a: string)
      returns (s: Section)
    requires Merge(cs, memorySize).Some? && i < |cs| && sec in cs[i].sections
    requires sec.name == a + "workload.FdMap256" && HasCpu(sec.name)
    ensures s in Merge(cs, memorySize).value.sections && Records(s, NewName(|cs|, i, sec.name), "M5_pid", i)
  {
    assert "workload.FdMap256" == "workload" + ['.'] + "FdMap256";
    assert sec.name == a + "workload" + ['.'] + "FdMap256";
    IsFdMapIff(sec.name);
    s := ItemsKept(cs, memorySize, i, sec);
  }

  /** Behind the memory of the checkpoints the image is filled with the character "0". */
  lemma {:induction false} PaddedWithZeros(cs: seq<Checkpoint>, memorySize: int, k: nat)
    requires Merge(cs, memorySize).Some? && |Memory(cs)| <= k < |Merge(cs, memorySize).value.image|
    ensures Merge(cs, memorySize).value.image[k] == 48
  {
    MergedImage(cs, memorySize);
  }

  /* ---- exactly when merging fails ---- */

  /** The address of a CPU section, if it has one, is a number. */
  ghost predicate Addressable(sec: Section) {
    HasCpu(sec.name) && "paddr" in sec.items ==> ParseInt(sec.items["paddr"]).Some?
  }

  ghost predicate HasSection(secs: seq<Section>, name: string) {
    exists k :: 0 <= k < |secs| && secs[k].name == name
  }

  lemma {:induction false} MergedSectionsSome(count: nat, i: nat, base: nat, secs: seq<Section>)
    requires i < count
    ensures MergedSections(count, i, base, secs).Some? <==> forall k :: 0 <= k < |secs| ==> Addressable(secs[k])
  {
    if secs == [] {
    } else {
      var n := |secs| - 1;
      MergedSectionsSome(count, i, base, secs[..n]);
      assert forall k :: 0 <= k < n ==> secs[..n][k] == secs[k];
      assert MergedSection(count, i, base, secs[n]).Some? <==> Addressable(secs[n]);
    }
  }

  lemma {:induction false} ConfigSome(cs: seq<Checkpoint>, n: nat)
    requires n <= |cs|
    ensures Config(cs, n).Some? <==>
            forall i, k :: 0 <= i < n && 0 <= k < |cs[i].sections| ==> Addressable(cs[i].sections[k])
  {
    if n == 0 {
    } else {
      ConfigSome(cs, n - 1);
      MergedSectionsSome(|cs|, n - 1, PageCount(cs[..n - 1]), cs[n - 1].sections);
    }
  }

  lemma {:induction false} SetItemSome(secs: seq<Section>, name: string, key: string, value: string)
    ensures SetItem(secs, name, key, value).Some? <==> HasSection(secs, name)
  {
    if secs == [] {
    } else {
      SetItemSome(secs[1..], name, key, value);
      if HasSection(secs[1..], name) {
        var k :| 0 <= k < |secs[1..]| && secs[1..][k].name == name;
        assert secs[k + 1].name == name;
      }
      if HasSection(secs, name) {
        var k :| 0 <= k < |secs| && secs[k].name == name;
        assert k > 0 ==> secs[1..][k - 1].name == name;
      }
    }
  }

  lemma CpuNameHasCpu(count: nat, i: nat, name: string)
    requires i < count && HasCpu(name)
    ensures HasCpu(NewName(count, i, name))
  {
    TagOfRename(Zfill(i, NumDigits(count)), name);
  }

  /** A section of another name than those of CPUs comes from the last checkpoint. */
  lemma {:induction false} OtherMerged(cs: seq<Checkpoint>, name: string)
    requires Config(cs, |cs|).Some? && !HasCpu(name)
    ensures HasSection(Config(cs, |cs|).value, name) <==> cs != [] && HasSection(cs[|cs| - 1].sections, name)
  {
    var secs := Config(cs, |cs|).value;
    if cs != [] && HasSection(cs[|cs| - 1].sections, name) { OtherKept(cs, name); }
    if HasSection(secs, name) {
      var k :| 0 <= k < |secs| && secs[k].name == name;
      ConfigNamed(cs, |cs|, k);
      var i :| 0 <= i < |cs| && NamedHere(|cs|, i, cs[i].sections, name);
      NamedInLast(|cs|, i, cs[i].sections, name);
    }
  }

  lemma NamedInLast(count: nat, i: nat, secs: seq<Section>, name: string)
    requires NamedHere(count, i, secs, name) && !HasCpu(name)
    ensures i == count - 1 && HasSection(secs, name)
  {
    var m :| 0 <= m < |secs| && NamedFrom(count, i, secs[m], name);
    if HasCpu(secs[m].name) { CpuNameHasCpu(count, i, secs[m].name); }
  }

  lemma {:induction false} OtherKept(cs: seq<Checkpoint>, name: string)
    requires Config(cs, |cs|).Some? && cs != [] && HasSection(cs[|cs| - 1].sections, name) && !HasCpu(name)
    ensures HasSection(Config(cs, |cs|).value, name)
  {
    var i, base := |cs| - 1, PageCount(cs[..|cs| - 1]);
    var k :| 0 <= k < |cs[i].sections| && cs[i].sections[k].name == name;
    ConfigHolds(cs, |cs|, i);
    MergedSectionIn(|cs|, i, base, cs[i].sections, k);
    var sec := cs[i].sections[k];
    assert sec in MergedSection(|cs|, i, base, sec).value;
  }

  ghost predicate Mergeable(cs: seq<Checkpoint>) {
    && (forall i, k :: 0 <= i < |cs| && 0 <= k < |cs[i].sections| ==> Addressable(cs[i].sections[k]))
    && cs != [] && HasSection(cs[|cs| - 1].sections, "system.physmem.store0")
  }

  /** Merging succeeds exactly when every address of a CPU section is a number and the last
      checkpoint has the memory section. */
  lemma {:induction false} MergesIff(cs: seq<Checkpoint>, memorySize: int)
    ensures Merge(cs, memorySize).Some? <==> Mergeable(cs)
  {
    ConfigSome(cs, |cs|);
    if Config(cs, |cs|).Some? {
      assert !HasCpu(STORE) by { NoCpuWithoutC(STORE); }
      OtherMerged(cs, STORE);
      var secs, sys := Config(cs, |cs|).value, SystemSection(PageCount(cs), |cs|);
      SetItemSome(secs + [sys], STORE, "range_size", Digits(PAGE * PaddedPages(PageCount(cs), memorySize)));
      WithSystem(secs, sys);
    }
  }

  lemma WithSystem(secs: seq<Section>, sys: Section)
    requires sys.name == "system"
    ensures HasSection(secs + [sys], STORE) <==> HasSection(secs, STORE)
  {
    if HasSection(secs, STORE) {
      var k :| 0 <= k < |secs| && secs[k].name == STORE;
      assert (secs + [sys])[k].name == STORE;
    }
  }

  /** A checkpoint that counts a page its image does not have, before one with the byte 7 at the
      address 0 of a CPU. */
  ghost predicate ShortFirst(cs: seq<Checkpoint>, cpu: Section) {
    && |cs| == 2 && cs[0].pages == 1 == cs[1].pages && cs[0].image == [] && cs[1].image == [7]
    && cpu in cs[1].sections && HasCpu(cpu.name)
    && "paddr" in cpu.items && ParseInt(cpu.items["paddr"]) == Some(0)
  }

  /** There are such checkpoints, and they can be merged. */
  lemma ShortInput() returns (cs: seq<Checkpoint>, cpu: Section)
    ensures ShortFirst(cs, cpu) && Mergeable(cs)
  {
    cpu := Section(CPU, map["paddr" := "0"]);
    var store := Section(STORE, map[]);
    cs := [Checkpoint([], 1, None, []), Checkpoint([cpu, store], 1, None, [7])];
    assert ParseInt("0") == Some(0) by { IntRoundTrip(0); }
    assert Addressable(store);
    assert cs[1].sections[1].name == STORE;
    assert cpu in cs[1].sections && HasCpu(CPU);
  }

  /** The address 0 becomes 4096, where the merged image, the one byte, has nothing. */
  lemma {:induction false} ShortImageMisleads(cs: seq<Checkpoint>, cpu: Section, memorySize: int)
      returns (s: Section)
    requires ShortFirst(cs, cpu) && Merge(cs, memorySize).Some? && memorySize <= 2 * PAGE
    ensures Merge(cs, memorySize).value.image == [7]
    ensures s in Merge(cs, memorySize).value.sections && Records(s, NewName(|cs|, 1, cpu.name), "paddr", 4096)
  {
    ShortMemory(cs);
    ShortImage(cs, memorySize);
    s := FirstByteMoves(cs, memorySize, 1, cpu);
  }

  lemma {:induction false} FirstByteMoves(cs: seq<Checkpoint>, memorySize: int, i: nat, sec: Section)
      returns (s: Section)
    requires Merge(cs, memorySize).Some? && i < |cs| && sec in cs[i].sections
    requires HasCpu(sec.name) && "paddr" in sec.items && ParseInt(sec.items["paddr"]) == Some(0)
    ensures s in Merge(cs, memorySize).value.sections
    ensures Records(s, NewName(|cs|, i, sec.name), "paddr", PAGE * PageCount(cs[..i]))
  {
    s := CpuSectionMerged(cs, memorySize, i, sec);
    RelocatedAddress(|cs|, i, PageCount(cs[..i]), sec, 0, s);
    RecordedIn(s, "paddr", PAGE * PageCount(cs[..i]));
  }

  lemma {:induction false} ShortImage(cs: seq<Checkpoint>, memorySize: int)
    requires Merge(cs, memorySize).Some? && memorySize <= PAGE * PageCount(cs)
    ensures Merge(cs, memorySize).value.image == Memory(cs)
  {
    MergedImage(cs, memorySize);
    assert Padding(0) == [];
  }

  lemma ShortMemory(cs: seq<Checkpoint>)
    requires |cs| == 2 && cs[0].pages == 1 == cs[1].pages && cs[0].image == [] && cs[1].image == [7]
    ensures Memory(cs) == [7] == Taken(cs[1]) && PageCount(cs) == 2 && PageCount(cs[..1]) == 1
  {
    assert cs[..1] == [cs[0]] && [cs[0]][..0] == [];
    assert Memory([cs[0]]) == [] && PageCount([cs[0]]) == 1;
  }

  /** The other sections of the last checkpoint are kept as they are. */
  lemma LastSectionsKept(cs: seq<Checkpoint>, memorySize: int, sec: Section)
    requires Merge(cs, memorySize).Some? && cs != [] && sec in cs[|cs| - 1].sections
    requires !HasCpu(sec.name) && sec.name != STORE
    ensures sec in Merge(cs, memorySize).value.sections
  {
    SectionMerged(cs, memorySize, |cs| - 1, sec);
    assert sec in [sec];
  }

  /** What is not of a CPU comes unchanged from the last checkpoint. */
  lemma {:induction false} OtherFromLast(cs: seq<Checkpoint>, n: nat, s: Section)
    requires n <= |cs| && Config(cs, n).Some? && s in Config(cs, n).value && !HasCpu(s.name)
    ensures n == |cs| && n > 0 && s in cs[n - 1].sections
  {
    var i := n - 1;
    var a, part := Config(cs, i).value, MergedSections(|cs|, i, PageCount(cs[..i]), cs[i].sections).value;
    if s in a {
      OtherFromLast(cs, i, s);
    } else {
      OtherFromPart(|cs|, i, PageCount(cs[..i]), cs[i].sections, s);
    }
  }

  lemma {:induction false} OtherFromPart(count: nat, i: nat, base: nat, secs: seq<Section>, s: Section)
    requires i < count && MergedSections(count, i, base, secs).Some? && !HasCpu(s.name)
    requires s in MergedSections(count, i, base, secs).value
    ensures i == count - 1 && s in secs
  {
    var n := |secs| - 1;
    if s in MergedSections(count, i, base, secs[..n]).value {
      OtherFromPart(count, i, base, secs[..n], s);
    } else {
      assert s in MergedSection(count, i, base, secs[n]).value;
      if HasCpu(secs[n].name) { CpuNameHasCpu(count, i, secs[n].name); }
    }
  }

  /** The only section of its name gets the item and keeps the others. */
  lemma {:induction false} SetItemOnly(secs: seq<Section>, s: Section, key: string, value: string)
    requires s in secs && forall x :: x in secs && x.name == s.name ==> x == s
    ensures SetItem(secs, s.name, key, value).Some?
    ensures s.(items := s.items[key := value]) in SetItem(secs, s.name, key, value).value
  {
    if secs[0].name == s.name {
      assert secs[0] == s;
    } else {
      assert forall x :: x in secs[1..] ==> x in secs;
      assert s in secs[1..];
      SetItemOnly(secs[1..], s, key, value);
    }
  }

  /** The memory section of the last checkpoint is kept but for its size. */
  lemma {:induction false} StoreKept(cs: seq<Checkpoint>, memorySize: int, sec: Section)
    requires Merge(cs, memorySize).Some? && cs != [] && sec in cs[|cs| - 1].sections
    requires sec.name == "system.physmem.store0" && DistinctNames(cs[|cs| - 1].sections)
    ensures sec.(items := sec.items["range_size" := Digits(4096 * PaddedPages(PageCount(cs), memorySize))])
            in Merge(cs, memorySize).value.sections
  {
    var size, sys := PAGE * PaddedPages(PageCount(cs), memorySize), SystemSection(PageCount(cs), |cs|);
    OnlyStore(cs, sec);
    SetItemOnly(Config(cs, |cs|).value + [sys], sec, "range_size", Digits(size));
  }

  lemma {:induction false} OnlyStore(cs: seq<Checkpoint>, sec: Section)
    requires Config(cs, |cs|).Some? && cs != [] && sec in cs[|cs| - 1].sections
    requires sec.name == STORE && DistinctNames(cs[|cs| - 1].sections)
    ensures sec in Config(cs, |cs|).value
    ensures forall x :: x in Config(cs, |cs|).value && x.name == sec.name ==> x == sec
  {
    NoCpuWithoutC(STORE);
    OtherInConfig(cs, sec);
    forall x | x in Config(cs, |cs|).value && x.name == sec.name ensures x == sec {
      OtherFromLast(cs, |cs|, x);
      SameName(cs[|cs| - 1].sections, x, sec);
    }
  }

  lemma SameName(secs: seq<Section>, a: Section, b: Section)
    requires DistinctNames(secs) && a in secs && b in secs && a.name == b.name
    ensures a == b
  {
    var j :| 0 <= j < |secs| && secs[j] == a;
    var k :| 0 <= k < |secs| && secs[k] == b;
    assert secs[j].name == secs[k].name;
  }

  lemma {:induction false} OtherInConfig(cs: seq<Checkpoint>, sec: Section)
    requires Config(cs, |cs|).Some? && cs != [] && sec in cs[|cs| - 1].sections && !HasCpu(sec.name)
    ensures sec in Config(cs, |cs|).value
  {
    var i, base := |cs| - 1, PageCount(cs[..|cs| - 1]);
    var k :| 0 <= k < |cs[i].sections| && cs[i].sections[k] == sec;
    ConfigHolds(cs, |cs|, i);
    MergedSectionIn(|cs|, i, base, cs[i].sections, k);
    assert sec in MergedSection(|cs|, i, base, sec).value;
  }

  lemma {:induction false} SetItemKeeps(secs: seq<Section>, name: string, key: string, value: string, s: Section)
    requires SetItem(secs, name, key, value).Some? && s in secs && s.name != name
    ensures s in SetItem(secs, name, key, value).value
  {
    SetItemFacts(secs, name, key, value);
    var k :| 0 <= k < |secs| && secs[k] == s;
    assert SetItem(secs, name, key, value).value[k] == s;
  }

  lemma {:induction false} CpuNameIsNotStore(count: nat, i: nat, name: string)
    requires i < count && HasCpu(name)
    ensures NewName(count, i, name) != STORE
  {
    TagOfRename(Zfill(i, NumDigits(count)), name);
    NoCpuWithoutC(STORE);
  }

  lemma {:induction false} SurvivesSizing(cs: seq<Checkpoint>, memorySize: int, s: Section)
    requires Merge(cs, memorySize).Some? && s in Config(cs, |cs|).value && s.name != STORE
    ensures s in Merge(cs, memorySize).value.sections
  {
    var pages := PageCount(cs);
    var secs := Config(cs, |cs|).value + [SystemSection(pages, |cs|)];
    assert s in secs;
    SetItemKeeps(secs, STORE, "range_size", Digits(PAGE * PaddedPages(pages, memorySize)), s);
  }

  /** The merged tick is the latest tick of the checkpoints. */
  lemma {:induction false} MaxTickIsLatest(cs: seq<Checkpoint>)
    ensures forall i :: 0 <= i < |cs| && cs[i].curTick.Some? ==> cs[i].curTick.value <= MaxTick(cs)
    ensures MaxTick(cs) == 0 || exists i :: 0 <= i < |cs| && cs[i].curTick == Some(MaxTick(cs))
  {
    if cs == [] {
    } else {
      MaxTickIsLatest(cs[..|cs| - 1]);
      assert forall i :: 0 <= i < |cs| - 1 ==> cs[..|cs| - 1][i] == cs[i];
    }
  }

  /* ---- section names ---- */

  ghost predicate DistinctNames(secs: seq<Section>) {
    forall j, k :: 0 <= j < k < |secs| ==> secs[j].name != secs[k].name
  }

  /** `name` is what section `sec` of checkpoint `i` is called in the merged checkpoint. */
  ghost predicate NamedFrom(count: nat, i: nat, sec: Section, name: string) {
    && i < count
    && if HasCpu(sec.name) then name == NewName(count, i, sec.name)
       else i == count - 1 && name == sec.name
  }

  lemma NamedFromOnce(count: nat, i: nat, a: Section, j: nat, b: Section, name: string)
    requires NamedFrom(count, i, a, name) && NamedFrom(count, j, b, name)
    ensures i == j && a.name == b.name
  {
    if HasCpu(a.name) { TagOfRename(Zfill(i, NumDigits(count)), a.name); }
    if HasCpu(b.name) { TagOfRename(Zfill(j, NumDigits(count)), b.name); }
    if HasCpu(a.name) && HasCpu(b.name) {
      NewNameInjective(count, i, a.name, j, b.name);
    }
  }

  /** `name` is what some section of checkpoint `i` is called. */
  ghost predicate NamedHere(count: nat, i: nat, secs: seq<Section>, name: string) {
    exists m :: 0 <= m < |secs| && NamedFrom(count, i, secs[m], name)
  }

  lemma {:induction false} PartNamed(count: nat, i: nat, base: nat, secs: seq<Section>, k: nat)
    requires i < count && MergedSections(count, i, base, secs).Some? && k < |MergedSections(count, i, base, secs).value|
    ensures NamedHere(count, i, secs, MergedSections(count, i, base, secs).value[k].name)
  {
    var r := MergedSections(count, i, base, secs).value;
    if secs == [] {
    } else {
      var n := |secs| - 1;
      var ra := MergedSections(count, i, base, secs[..n]).value;
      if k < |ra| {
        PartNamed(count, i, base, secs[..n], k);
        var m :| 0 <= m < n && NamedFrom(count, i, secs[..n][m], ra[k].name);
        assert NamedFrom(count, i, secs[m], r[k].name);
      } else {
        assert NamedFrom(count, i, secs[n], r[k].name);
      }
    }
  }

  /** The sections of one checkpoint get distinct names. */
  lemma {:induction false} PartNames(count: nat, i: nat, base: nat, secs: seq<Section>)
    requires i < count && MergedSections(count, i, base, secs).Some? && DistinctNames(secs)
    ensures DistinctNames(MergedSections(count, i, base, secs).value)
  {
    if secs == [] {
    } else {
      var n := |secs| - 1;
      var a, x := secs[..n], secs[n];
      PartNames(count, i, base, a);
      var ra, rx := MergedSections(count, i, base, a).value, MergedSection(count, i, base, x).value;
      forall j, k | 0 <= j < |ra| && 0 <= k < |rx| ensures ra[j].name != rx[k].name {
        PartNamed(count, i, base, a, j);
        var m :| 0 <= m < n && NamedFrom(count, i, a[m], ra[j].name);
        assert NamedFrom(count, i, x, rx[k].name) && secs[m] == a[m];
        if ra[j].name == rx[k].name { NamedFromOnce(count, i, a[m], i, x, rx[k].name); }
      }
      JoinDistinct(ra, rx);
    }
  }

  lemma JoinDistinct(a: seq<Section>, b: seq<Section>)
    requires DistinctNames(a) && DistinctNames(b)
    requires forall j, k :: 0 <= j < |a| && 0 <= k < |b| ==> a[j].name != b[k].name
    ensures DistinctNames(a + b)
  {
  }

  /** The name comes from a section of one of the first `n` checkpoints. */
  ghost predicate NamedBelow(cs: seq<Checkpoint>, n: nat, name: string)
    requires n <= |cs|
  {
    exists i :: 0 <= i < n && NamedHere(|cs|, i, cs[i].sections, name)
  }

  lemma {:induction false} ConfigNamed(cs: seq<Checkpoint>, n: nat, k: nat)
    requires n <= |cs| && Config(cs, n).Some? && k < |Config(cs, n).value|
    ensures NamedBelow(cs, n, Config(cs, n).value[k].name)
  {
    if n == 0 {
    } else {
      var i, a := n - 1, Config(cs, n - 1).value;
      if k < |a| {
        ConfigNamed(cs, i, k);
      } else {
        PartNamed(|cs|, i, PageCount(cs[..i]), cs[i].sections, k - |a|);
      }
    }
  }

  lemma {:induction false} ConfigNames(cs: seq<Checkpoint>, n: nat)
    requires n <= |cs| && Config(cs, n).Some?
    requires forall i :: 0 <= i < n ==> DistinctNames(cs[i].sections)
    ensures DistinctNames(Config(cs, n).value)
  {
    if n == 0 {
    } else {
      var i, count := n - 1, |cs|;
      ConfigNames(cs, i);
      var base := PageCount(cs[..i]);
      PartNames(count, i, base, cs[i].sections);
      var a, b := Config(cs, i).value, MergedSections(count, i, base, cs[i].sections).value;
      forall j, k | 0 <= j < |a| && 0 <= k < |b| ensures a[j].name != b[k].name {
        ConfigNamed(cs, i, j);
        PartNamed(count, i, base, cs[i].sections, k);
        OtherCheckpoint(cs, i, a[j].name, b[k].name);
      }
      JoinDistinct(a, b);
    }
  }

  lemma OtherCheckpoint(cs: seq<Checkpoint>, i: nat, early: string, late: string)
    requires i < |cs| && NamedBelow(cs, i, early) && NamedHere(|cs|, i, cs[i].sections, late)
    ensures early != late
  {
    var h :| 0 <= h < i && NamedHere(|cs|, h, cs[h].sections, early);
    var l :| 0 <= l < |cs[h].sections| && NamedFrom(|cs|, h, cs[h].sections[l], early);
    var m :| 0 <= m < |cs[i].sections| && NamedFrom(|cs|, i, cs[i].sections[m], late);
    if early == late { NamedFromOnce(|cs|, h, cs[h].sections[l], i, cs[i].sections[m], late); }
  }

  lemma {:induction false} NameIsOther(cs: seq<Checkpoint>, n: nat, name: string, other: string)
    requires n <= |cs| && NamedBelow(cs, n, name) && 'c' !in other
    requires forall i, m :: 0 <= i < |cs| && 0 <= m < |cs[i].sections| ==> cs[i].sections[m].name != other
    ensures name != other
  {
    var i :| 0 <= i < n && NamedHere(|cs|, i, cs[i].sections, name);
    var m :| 0 <= m < |cs[i].sections| && NamedFrom(|cs|, i, cs[i].sections[m], name);
    NoCpuWithoutC(other);
    if HasCpu(cs[i].sections[m].name) {
      TagOfRename(Zfill(i, NumDigits(|cs|)), cs[i].sections[m].name);
    }
  }

  /** No two sections of the merged checkpoint have the same name. */
  lemma {:induction false} MergedNamesDistinct(cs: seq<Checkpoint>, memorySize: int)
    requires Merge(cs, memorySize).Some?
    requires forall i :: 0 <= i < |cs| ==> DistinctNames(cs[i].sections)
    requires forall i, m :: 0 <= i < |cs| && 0 <= m < |cs[i].sections| ==>
               cs[i].sections[m].name != "system" && cs[i].sections[m].name != "Globals"
    ensures DistinctNames(Merge(cs, memorySize).value.sections)
  {
    var pages, secs := PageCount(cs), Config(cs, |cs|).value;
    ConfigNames(cs, |cs|);
    forall k | 0 <= k < |secs| ensures secs[k].name != "system" && secs[k].name != "Globals" {
      ConfigNamed(cs, |cs|, k);
      NameIsOther(cs, |cs|, secs[k].name, "system");
      NameIsOther(cs, |cs|, secs[k].name, "Globals");
    }
    FramedDistinct(secs, SystemSection(pages, |cs|), GlobalsSection(MaxTick(cs)),
                   Digits(PAGE * PaddedPages(pages, memorySize)));
  }

  lemma {:induction false} FramedDistinct(secs: seq<Section>, sys: Section, glob: Section, value: string)
    requires DistinctNames(secs) && sys.name == "system" && glob.name == "Globals"
    requires forall k :: 0 <= k < |secs| ==> secs[k].name != "system" && secs[k].name != "Globals"
    requires SetItem(secs + [sys], STORE, "range_size", value).Some?
    ensures DistinctNames(SetItem(secs + [sys], STORE, "range_size", value).value + [glob])
  {
    JoinDistinct(secs, [sys]);
    SetItemFacts(secs + [sys], STORE, "range_size", value);
    var sized := SetItem(secs + [sys], STORE, "range_size", value).value;
    assert DistinctNames(sized);
    JoinDistinct(sized, [glob]);
  }

  /* ---- the script ---- */

  lemma NextPage(image: seq<Byte>, pos: nat, x: nat)
    requires pos == if PAGE * x <= |image| then PAGE * x else |image|
    ensures var n := Protolib.ReadCount(PAGE, |image| - pos);
            && image[..pos] + image[pos..][..n] == image[..pos + n]
            && pos + n == if PAGE * (x + 1) <= |image| then PAGE * (x + 1) else |image|
  {
  }

  /** Reads page by page; a short image gives what it has. */
  method ReadPages(c: Checkpoint) returns (r: seq<Byte>)
    ensures r == Taken(c)
  {
    var file := new Protolib.ByteFile(c.image);
    r := [];
    var x := 0;
    while x < c.pages
      invariant 0 <= x <= c.pages && fresh(file) && file.Valid() && file.data == c.image
      invariant r == c.image[..file.pos]
      invariant file.pos == if PAGE * x <= |c.image| then PAGE * x else |c.image|
    {
      NextPage(c.image, file.pos, x);
      var bytes := file.Read(PAGE);
      r := r + bytes;
      x := x + 1;
    }
  }

  /** Copies the sections of checkpoint `i` into the merged configuration. */
  method CopySections(count: nat, i: nat, base: nat, secs: seq<Section>) returns (r: Option<seq<Section>>)
    requires i < count
    ensures r == MergedSections(count, i, base, secs)
  {
    var out: seq<Section> := [];
    for k := 0 to |secs|
      invariant MergedSections(count, i, base, secs[..k]) == Some(out)
    {
      assert secs[..k + 1][..k] == secs[..k];
      var part := MergedSection(count, i, base, secs[k]);
      if part.None? {
        SectionsFail(count, i, base, secs, k + 1);
        return None;
      }
      out := out + part.value;
    }
    assert secs[..|secs|] == secs;
    r := Some(out);
  }

  lemma {:induction false} SectionsFail(count: nat, i: nat, base: nat, secs: seq<Section>, k: nat)
    requires i < count && k <= |secs| && MergedSections(count, i, base, secs[..k]) == None
    ensures MergedSections(count, i, base, secs) == None
    decreases |secs|
  {
    if k == |secs| {
      assert secs[..k] == secs;
    } else {
      assert secs[..|secs| - 1][..k] == secs[..k];
      SectionsFail(count, i, base, secs[..|secs| - 1], k);
    }
  }

  lemma {:induction false} ConfigFails(cs: seq<Checkpoint>, k: nat, n: nat)
    requires k <= n <= |cs| && Config(cs, k) == None
    ensures Config(cs, n) == None
  {
    if k == n {
    } else {
      ConfigFails(cs, k, n - 1);
    }
  }

  /** Pads the image with pages until it has the wanted size. */
  method Pad(image: seq<Byte>, pages: nat, memorySize: int) returns (padded: seq<Byte>, pagePtr: nat)
    ensures pagePtr == PaddedPages(pages, memorySize)
    ensures padded == image + Padding(pagePtr - pages)
  {
    padded, pagePtr := image, pages;
    var fileSize := pages * PAGE;
    assert Padding(0) == [];
    while fileSize < memorySize
      invariant pages <= pagePtr && fileSize == pagePtr * PAGE
      invariant pagePtr > pages ==> PAGE * (pagePtr - 1) < memorySize
      invariant padded == image + Padding(pagePtr - pages)
    {
      padded := padded + Padding(1);
      assert Padding(pagePtr + 1 - pages) == Padding(pagePtr - pages) + Padding(1);
      fileSize := fileSize + PAGE;
      pagePtr := pagePtr + 1;
    }
  }

  /** The merging script. */
  method Aggregate(cs: seq<Checkpoint>, memorySize: int) returns (r: Option<Merged>)
    ensures r == Merge(cs, memorySize)
  {
    var pagePtr: nat, maxTick: nat := 0, 0;
    var config: seq<Section>, image: seq<Byte> := [], [];
    for i := 0 to |cs|
      invariant pagePtr == PageCount(cs[..i]) && maxTick == MaxTick(cs[..i])
      invariant Config(cs, i) == Some(config) && image == Memory(cs[..i])
    {
      assert cs[..i + 1][..i] == cs[..i];
      var secs := CopySections(|cs|, i, pagePtr, cs[i].sections);
      if secs.None? {
        ConfigFails(cs, i + 1, |cs|);
        return None;
      }
      config := config + secs.value;
      if cs[i].curTick.Some? && cs[i].curTick.value > maxTick {
        maxTick := cs[i].curTick.value;
      }
      pagePtr := pagePtr + cs[i].pages;
      var pages := ReadPages(cs[i]);
      image := image + pages;
    }
    assert cs[..|cs|] == cs;
    config := config + [SystemSection(pagePtr, |cs|)];
    var padded;
    image, padded := Pad(image, pagePtr, memorySize);
    var sized := SetItem(config, STORE, "range_size", Digits(PAGE * padded));
    if sized.None? { return None; }
    r := Some(Merged(sized.value + [GlobalsSection(maxTick)], image));
  }
}
