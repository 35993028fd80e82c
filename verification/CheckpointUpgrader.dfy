/**
 The checkpoint upgrader as the script has it: loading the migration scripts with their legacy
 chain and forward dependencies, and the loop that applies pending migrations in place.
 */
module CheckpointUpgrader {
  import opened Wrappers
  import opened Seqs
  import opened UpgradeRounds

  /** A migration script as its file declares it. */
  datatype Script = Script(
    tag: Tag, depends: seq<Tag>, fwdDepends: seq<Tag>, upgrades: bool, legacyVersion: Option<int>)

  /* ---- what loading should give ---- */

  /** The script that holds each legacy version: the last one loaded. */
  function LegacyOf(scripts: seq<Script>): (r: map<int, Tag>)
  {
    if scripts == [] then map[]
    else
      var r, s := LegacyOf(scripts[..|scripts| - 1]), scripts[|scripts| - 1];
      if s.legacyVersion.Some? then r[s.legacyVersion.value := s.tag] else r
  }

  /** Legacy version `v` is reached from version 2 without a gap. */
  predicate Linked(legacy: map<int, Tag>, v: int) {
    3 <= v && forall i :: 3 <= i <= v ==> i in legacy
  }

  /** A linked legacy script depends on its predecessor only. */
  function OwnDepends(legacy: map<int, Tag>, s: Script): (r: seq<Tag>)
  {
    if s.legacyVersion.Some? then
      var v := s.legacyVersion.value;
      if Linked(legacy, v) && legacy[v] == s.tag && v - 1 in legacy then [legacy[v - 1]] else s.depends
    else s.depends
  }

  function TagsOf(scripts: seq<Script>): (r: set<Tag>) { set s | s in scripts :: s.tag }

  /** What script `s` depends on: its own dependencies and every script that names it forward. */
  ghost function Dependencies(scripts: seq<Script>, s: Script): (r: set<Tag>)
  {
    ToSet(OwnDepends(LegacyOf(scripts), s)) + Forward(scripts, s.tag)
  }

  ghost predicate Known(scripts: seq<Script>, s: Script) {
    && (forall fd :: fd in s.fwdDepends ==> fd in TagsOf(scripts))
    && (forall d :: d in OwnDepends(LegacyOf(scripts), s) ==> d in TagsOf(scripts))
  }

  /** No dependency names a tag that does not exist, and the legacy chain has its first link. */
  ghost predicate Loadable(scripts: seq<Script>) {
    && (3 in LegacyOf(scripts) ==> 2 in LegacyOf(scripts))
    && AllKnown(scripts, |scripts|)
  }

  ghost predicate AllKnown(scripts: seq<Script>, n: nat)
    requires n <= |scripts|
  {
    forall i :: 0 <= i < n ==> Known(scripts, scripts[i])
  }

  lemma AllKnownStep(scripts: seq<Script>, n: nat)
    requires n < |scripts|
    ensures AllKnown(scripts, n + 1) <==> AllKnown(scripts, n) && Known(scripts, scripts[n])
    ensures !AllKnown(scripts, n + 1) ==> !AllKnown(scripts, |scripts|)
  {
    if AllKnown(scripts, n + 1) {
      assert Known(scripts, scripts[n]);
    }
  }

  /** Each tag is used by one script. */
  ghost predicate UniqueTags(scripts: seq<Script>) {
    forall i, j :: 0 <= i < j < |scripts| ==> scripts[i].tag != scripts[j].tag
  }

  predicate LinkedScript(legacy: map<int, Tag>, s: Script, i: int) {
    s.legacyVersion.Some? &&
    var v := s.legacyVersion.value;
    3 <= v < i && v in legacy && v - 1 in legacy && legacy[v] == s.tag
  }

  /** The versions from 2 up to but not including `i` are there, if there is any to link. */
  ghost predicate ChainBelow(legacy: map<int, Tag>, i: int) {
    (forall v :: 3 <= v < i ==> v in legacy) && (i > 3 ==> 2 in legacy)
  }

  /** `reg` holds the scripts, those of legacy versions below `i` already linked. */
  ghost predicate LinkedBelow(scripts: seq<Script>, legacy: map<int, Tag>, reg: Registry, i: int) {
    && reg.Keys == TagsOf(scripts) && ChainBelow(legacy, i)
    && forall s :: s in scripts ==> reg[s.tag] == LinkedUpgrader(legacy, s, i)
  }

  ghost function From(legacy: map<int, Tag>, i: int): (r: set<int>)
  {
    set v | v in legacy && v >= i
  }

  lemma FromShrinks(legacy: map<int, Tag>, i: int)
    requires i in legacy
    ensures From(legacy, i + 1) < From(legacy, i)
  {
    assert i in From(legacy, i) && i !in From(legacy, i + 1);
  }

  ghost function LinkedUpgrader(legacy: map<int, Tag>, s: Script, i: int): (u: Upgrader)
  {
    Upgrader(if LinkedScript(legacy, s, i) then [legacy[s.legacyVersion.value - 1]] else s.depends, s.upgrades)
  }

  lemma LinkStep(scripts: seq<Script>, legacy: map<int, Tag>, reg: Registry, i: int)
    requires UniqueTags(scripts) && legacy == LegacyOf(scripts)
    requires 3 <= i && i in legacy && i - 1 in legacy && LinkedBelow(scripts, legacy, reg, i)
    ensures legacy[i] in reg
    ensures LinkedBelow(scripts, legacy, reg[legacy[i] := reg[legacy[i]].(depends := [legacy[i - 1]])], i + 1)
  {
    var holder := LegacyHolder(scripts, i);
    assert holder.tag in TagsOf(scripts);
    var reg' := reg[legacy[i] := reg[legacy[i]].(depends := [legacy[i - 1]])];
    assert reg'.Keys == reg.Keys;
    forall s | s in scripts ensures reg'[s.tag] == LinkedUpgrader(legacy, s, i + 1) {
      assert s.tag in TagsOf(scripts) && reg[s.tag] == LinkedUpgrader(legacy, s, i);
      LinkOne(scripts, legacy, i, holder, s);
    }
  }

  lemma LinkOne(scripts: seq<Script>, legacy: map<int, Tag>, i: int, holder: Script, s: Script)
    requires UniqueTags(scripts) && s in scripts && holder in scripts
    requires 3 <= i && i in legacy && i - 1 in legacy && holder.legacyVersion == Some(i) && holder.tag == legacy[i]
    ensures LinkedUpgrader(legacy, s, i + 1) ==
            if s.tag == legacy[i] then LinkedUpgrader(legacy, s, i).(depends := [legacy[i - 1]])
            else LinkedUpgrader(legacy, s, i)
  {
    if s != holder { UniqueTag(scripts, s, holder); }
  }

  /** `reg` holds the linked scripts with the forward dependencies of the first `n` added. */
  ghost predicate Resolved(scripts: seq<Script>, reg: Registry, n: nat)
    requires n <= |scripts|
  {
    && reg.Keys == TagsOf(scripts)
    && forall s :: s in scripts ==> ResolvedScript(scripts, reg, n, s)
  }

  ghost predicate ResolvedScript(scripts: seq<Script>, reg: Registry, n: nat, s: Script)
    requires n <= |scripts| && s.tag in reg
  {
    && reg[s.tag].upgrades == s.upgrades
    && ToSet(reg[s.tag].depends) == ToSet(OwnDepends(LegacyOf(scripts), s)) + Forward(scripts[..n], s.tag)
  }

  lemma ResolveStep(scripts: seq<Script>, reg: Registry, reg': Registry, n: nat)
    requires n < |scripts| && Resolved(scripts, reg, n)
    requires Grown(reg, reg', scripts[n].tag, scripts[n].fwdDepends)
    ensures Resolved(scripts, reg', n + 1)
  {
    forall s | s in scripts ensures ResolvedScript(scripts, reg', n + 1, s) {
      assert s.tag in TagsOf(scripts);
      assert ResolvedScript(scripts, reg, n, s);
      ResolveOne(scripts, reg, reg', n, s);
    }
  }

  lemma ResolveOne(scripts: seq<Script>, reg: Registry, reg': Registry, n: nat, s: Script)
    requires n < |scripts| && s.tag in reg && ResolvedScript(scripts, reg, n, s)
    requires Grown(reg, reg', scripts[n].tag, scripts[n].fwdDepends)
    ensures s.tag in reg' && ResolvedScript(scripts, reg', n + 1, s)
  {
    ForwardStep(scripts, n, s.tag);
    assert s.tag in reg';
  }

  /** With its forward dependencies added, a script passes the audit exactly when its own
      dependencies exist. */
  lemma AuditMeansKnown(scripts: seq<Script>, reg: Registry, n: nat, s: Script)
    requires n <= |scripts| && s in scripts && Resolved(scripts, reg, n)
    requires forall fd :: fd in s.fwdDepends ==> fd in TagsOf(scripts)
    ensures s.tag in reg
    ensures ToSet(reg[s.tag].depends) <= reg.Keys <==> Known(scripts, s)
  {
    assert s.tag in TagsOf(scripts);
    assert ResolvedScript(scripts, reg, n, s);
    ForwardKnown(scripts, n, s.tag);
    KnownAsSet(scripts, s);
  }

  lemma LinkedMeansBelow(legacy: map<int, Tag>, s: Script, i: int)
    requires 3 <= i && i !in legacy && ChainBelow(legacy, i)
    ensures OwnDepends(legacy, s) ==
            if LinkedScript(legacy, s, i) then [legacy[s.legacyVersion.value - 1]] else s.depends
  {
  }

  lemma LinkedIsResolved(scripts: seq<Script>, legacy: map<int, Tag>, reg: Registry, i: int)
    requires legacy == LegacyOf(scripts) && 3 <= i && i !in legacy && LinkedBelow(scripts, legacy, reg, i)
    ensures Resolved(scripts, reg, 0)
  {
    forall s | s in scripts ensures s.tag in reg && ResolvedScript(scripts, reg, 0, s) {
      assert s.tag in TagsOf(scripts);
      LinkedMeansBelow(legacy, s, i);
      assert Forward(scripts[..0], s.tag) == {};
    }
  }

  /** The script that holds a legacy version. */
  lemma {:induction false} LegacyHolder(scripts: seq<Script>, v: int) returns (s: Script)
    requires v in LegacyOf(scripts)
    ensures s in scripts && s.legacyVersion == Some(v) && s.tag == LegacyOf(scripts)[v]
  {
    if scripts[|scripts| - 1].legacyVersion == Some(v) {
      s := scripts[|scripts| - 1];
    } else {
      s := LegacyHolder(scripts[..|scripts| - 1], v);
    }
  }

  lemma UniqueTag(scripts: seq<Script>, a: Script, b: Script)
    requires UniqueTags(scripts) && a in scripts && b in scripts && a != b
    ensures a.tag != b.tag
  {
    var i :| 0 <= i < |scripts| && scripts[i] == a;
    var j :| 0 <= j < |scripts| && scripts[j] == b;
    assert i < j ==> scripts[i].tag != scripts[j].tag;
    assert j < i ==> scripts[j].tag != scripts[i].tag;
  }

  /** `to` is `from` with `tag` added to what each script in `fwd` depends on. */
  ghost predicate Grown(from: Registry, to: Registry, tag: Tag, fwd: seq<Tag>) {
    && to.Keys == from.Keys
    && forall t :: t in to ==>
         && to[t].upgrades == from[t].upgrades
         && ToSet(to[t].depends) == ToSet(from[t].depends) + if t in fwd then {tag} else {}
  }

  ghost function Forward(scripts: seq<Script>, t: Tag): (r: set<Tag>)
  {
    set u | u in scripts && t in u.fwdDepends :: u.tag
  }

  lemma ForwardStep(scripts: seq<Script>, n: nat, t: Tag)
    requires n < |scripts|
    ensures Forward(scripts[..n + 1], t) ==
            Forward(scripts[..n], t) + if t in scripts[n].fwdDepends then {scripts[n].tag} else {}
  {
    assert scripts[..n + 1] == scripts[..n] + [scripts[n]];
  }

  lemma ForwardKnown(scripts: seq<Script>, n: nat, t: Tag)
    requires n <= |scripts|
    ensures Forward(scripts[..n], t) <= TagsOf(scripts)
  {
  }

  lemma KnownAsSet(scripts: seq<Script>, s: Script)
    ensures (forall d :: d in OwnDepends(LegacyOf(scripts), s) ==> d in TagsOf(scripts)) <==>
            ToSet(OwnDepends(LegacyOf(scripts), s)) <= TagsOf(scripts)
  {
    var ds := OwnDepends(LegacyOf(scripts), s);
    assert forall d :: d in ds <==> d in ToSet(ds);
  }

  /* ---- loading ---- */

  lemma RegisterStep(scripts: seq<Script>, n: nat)
    requires n < |scripts|
    ensures TagsOf(scripts[..n + 1]) == TagsOf(scripts[..n]) + {scripts[n].tag}
    ensures var s, r := scripts[n], LegacyOf(scripts[..n]);
            LegacyOf(scripts[..n + 1]) == if s.legacyVersion.Some? then r[s.legacyVersion.value := s.tag] else r
  {
    assert scripts[..n + 1] == scripts[..n] + [scripts[n]];
    assert scripts[..n + 1][..n] == scripts[..n];
  }

  class Loader {
    var reg: Registry
    var legacy: map<int, Tag>

    constructor ()
      ensures reg == map[] && legacy == map[]
    {
      reg, legacy := map[], map[];
    }

    ghost predicate Registered(scripts: seq<Script>, n: nat)
      requires n <= |scripts|
      reads this
    {
      && legacy == LegacyOf(scripts[..n])
      && reg.Keys == TagsOf(scripts[..n])
      && forall i :: 0 <= i < n ==> reg[scripts[i].tag] == Upgrader(scripts[i].depends, scripts[i].upgrades)
    }

    /** Runs every script file. */
    method Register(scripts: seq<Script>)
      requires UniqueTags(scripts) && reg == map[] && legacy == map[]
      modifies this
      ensures Registered(scripts, |scripts|)
    {
      for n := 0 to |scripts|
        invariant Registered(scripts, n)
      {
        var s := scripts[n];
        RegisterStep(scripts, n);
        if s.legacyVersion.Some? {
          legacy := legacy[s.legacyVersion.value := s.tag];
        }
        reg := reg[s.tag := Upgrader(s.depends, s.upgrades)];
      }
      assert scripts[..|scripts|] == scripts;
    }

    /** Makes linear dependences for the legacy versions. */
    method LinkLegacy(scripts: seq<Script>) returns (ok: bool)
      requires UniqueTags(scripts) && legacy == LegacyOf(scripts) && LinkedBelow(scripts, legacy, reg, 3)
      modifies this`reg
      ensures ok <==> (3 in legacy ==> 2 in legacy)
      ensures ok ==> exists i :: 3 <= i && i !in legacy && LinkedBelow(scripts, legacy, reg, i)
    {
      var i := 3;
      while i in legacy
        invariant 3 <= i && LinkedBelow(scripts, legacy, reg, i)
        decreases From(legacy, i)
      {
        if i - 1 !in legacy { return false; }
        LinkStep(scripts, legacy, reg, i);
        reg := reg[legacy[i] := reg[legacy[i]].(depends := [legacy[i - 1]])];
        FromShrinks(legacy, i);
        i := i + 1;
      }
      ok := true;
    }

    /** Adds `tag` to what each script in `fwd` depends on. */
    method AddForward(tag: Tag, fwd: seq<Tag>) returns (ok: bool)
      modifies this`reg
      ensures ok <==> forall fd :: fd in fwd ==> fd in old(reg)
      ensures ok ==> Grown(old(reg), reg, tag, fwd)
    {
      ghost var before := reg;
      for i := 0 to |fwd|
        invariant forall fd :: fd in fwd[..i] ==> fd in before
        invariant Grown(before, reg, tag, fwd[..i])
      {
        if fwd[i] !in reg { return false; }
        var u := reg[fwd[i]];
        ToSetConcat(u.depends, [tag]);
        assert ToSet([tag]) == {tag};
        reg := reg[fwd[i] := u.(depends := u.depends + [tag])];
        assert fwd[..i + 1] == fwd[..i] + [fwd[i]];
      }
      assert fwd[..|fwd|] == fwd;
      ok := true;
    }

    /** Checks that what `tag` depends on exists. */
    method Audit(tag: Tag) returns (ok: bool)
      requires tag in reg
      ensures ok <==> ToSet(reg[tag].depends) <= reg.Keys
    {
      var deps := reg[tag].depends;
      for i := 0 to |deps|
        invariant forall j :: 0 <= j < i ==> deps[j] in reg
      {
        if deps[i] !in reg {
          assert deps[i] in ToSet(deps);
          return false;
        }
      }
      ok := true;
    }

    /** Resolves the forward dependencies of script `n` and audits its own. */
    method ResolveScript(scripts: seq<Script>, n: nat) returns (ok: bool)
      requires n < |scripts| && Resolved(scripts, reg, n)
      modifies this`reg
      ensures ok <==> Known(scripts, scripts[n])
      ensures ok ==> Resolved(scripts, reg, n + 1)
    {
      var s := scripts[n];
      ghost var before := reg;
      ok := AddForward(s.tag, s.fwdDepends);
      if ok {
        ResolveStep(scripts, before, reg, n);
        AuditMeansKnown(scripts, reg, n + 1, s);
        ok := Audit(s.tag);
      }
    }

    /** Resolves forward dependencies and audits all dependencies. */
    method Resolve(scripts: seq<Script>) returns (ok: bool)
      requires Resolved(scripts, reg, 0)
      modifies this`reg
      ensures ok <==> AllKnown(scripts, |scripts|)
      ensures ok ==> Resolved(scripts, reg, |scripts|)
    {
      for n := 0 to |scripts|
        invariant Resolved(scripts, reg, n)
        invariant AllKnown(scripts, n)
      {
        ok := ResolveScript(scripts, n);
        AllKnownStep(scripts, n);
        if !ok { return; }
      }
      ok := true;
    }

    /** Loads all scripts. It fails exactly when a dependency names no script or the legacy chain
        lacks its first link; otherwise each script depends on what it declares, or on its legacy
        predecessor, and on every script that names it forward. */
    method LoadAll(scripts: seq<Script>) returns (ok: bool)
      requires UniqueTags(scripts) && reg == map[] && legacy == map[]
      modifies this
      ensures ok <==> Loadable(scripts)
      ensures ok ==> legacy == LegacyOf(scripts) && reg.Keys == TagsOf(scripts)
      ensures ok ==> forall s :: s in scripts ==>
                       reg[s.tag].upgrades == s.upgrades && ToSet(reg[s.tag].depends) == Dependencies(scripts, s)
    {
      Register(scripts);
      assert scripts[..|scripts|] == scripts;
      ok := LinkLegacy(scripts);
      if !ok { return; }
      ghost var i :| 3 <= i && i !in legacy && LinkedBelow(scripts, legacy, reg, i);
      LinkedIsResolved(scripts, legacy, reg, i);
      ok := Resolve(scripts);
      assert ok ==> forall s :: s in scripts ==> ResolvedScript(scripts, reg, |scripts|, s);
    }
  }

  /* ---- applying ---- */

  lemma EnumerateNext(part: seq<Tag>, done: set<Tag>, t: Tag)
    requires Enumerates(part, done) && t !in done
    ensures Enumerates(part + [t], done + {t})
  {
    assert ToSet([t]) == {t};
    ToSetConcat(part, [t]);
    DistinctConcat(part, [t]);
  }

  lemma AppliedNext(reg: Registry, tags: set<Tag>, done: set<Tag>, t: Tag)
    requires t in reg && t !in done
    ensures Applied(reg, tags, done + {t}) ==
            if reg[t].upgrades then Applied(reg, tags, done) + {t} else Applied(reg, tags, done) - {t}
  {
  }

  /** Applies the ready migrations, in any order. A tag that is removed is always present. */
  method ApplyRound(reg: Registry, before: set<Tag>, ready: set<Tag>) returns (tags: set<Tag>, log: seq<Tag>)
    requires ready <= reg.Keys && ready * UntagSet(reg) <= before
    ensures tags == Applied(reg, before, ready)
    ensures Enumerates(log, ready)
  {
    tags, log := before, [];
    var todo := ready;
    while todo != {}
      invariant todo <= ready && Enumerates(log, ready - todo)
      invariant tags == Applied(reg, before, ready - todo)
      decreases todo
    {
      var t :| t in todo;
      ghost var done := ready - todo;
      EnumerateNext(log, done, t);
      AppliedNext(reg, before, done, t);
      if reg[t].upgrades {
        tags := tags + {t};
      } else {
        assert t in tags;
        tags := tags - {t};
      }
      log := log + [t];
      todo := todo - {t};
      assert ready - todo == done + {t};
    }
    assert ready - todo == ready;
  }

  /** The migration loop: runs rounds until nothing is pending or nothing is ready. */
  method RunRounds(reg: Registry, initial: set<Tag>)
      returns (pending: set<Tag>, tags: set<Tag>, log: seq<Tag>, ghost parts: seq<seq<Tag>>)
    ensures State(tags, pending) == Rounds(reg, Begin(reg, initial), |parts|)
    ensures pending == {} || ReadySet(reg, State(tags, pending)) == {}
    ensures log == Flatten(parts) && InRounds(reg, Begin(reg, initial), parts)
  {
    tags, pending, log, parts := initial, Pending(reg, initial), [], [];
    while pending != {}
      invariant State(tags, pending) == Rounds(reg, Begin(reg, initial), |parts|)
      invariant log == Flatten(parts) && InRounds(reg, Begin(reg, initial), parts)
      decreases pending
    {
      var ready := ReadySet(reg, State(tags, pending));
      if ready == {} { return; }
      RoundApplies(reg, initial, |parts|);
      var part;
      tags, part := ApplyRound(reg, tags, ready);
      FlattenNext(reg, Begin(reg, initial), parts, part);
      pending, log, parts := pending - ready, log + part, parts + [part];
    }
  }

  /** `log` lists the migrations in the order they were run; `parts` groups it by round. The run
      gives up exactly when the rounds cannot finish, whatever the order inside the rounds. */
  method ApplyPending(reg: Registry, initial: set<Tag>)
      returns (ok: bool, tags: set<Tag>, log: seq<Tag>, ghost parts: seq<seq<Tag>>)
    ensures ok <==> Succeeds(reg, initial)
    ensures tags == Rounds(reg, Begin(reg, initial), |parts|).tags
    ensures log == Flatten(parts) && InRounds(reg, Begin(reg, initial), parts)
    ensures ok ==> tags == (initial + TagSet(reg)) - UntagSet(reg)
    ensures ok ==> Distinct(log) && ToSet(log) == Pending(reg, initial)
  {
    var pending;
    pending, tags, log, parts := RunRounds(reg, initial);
    ok := pending == {};
    if ok {
      FinalTags(reg, initial, |parts|);
      LogExact(reg, initial, parts);
    } else {
      GivesUp(reg, initial, |parts|);
    }
  }

  lemma FlattenNext(reg: Registry, s: State, parts: seq<seq<Tag>>, part: seq<Tag>)
    requires InRounds(reg, s, parts) && Enumerates(part, ReadySet(reg, Rounds(reg, s, |parts|)))
    ensures Flatten(parts + [part]) == Flatten(parts) + part && InRounds(reg, s, parts + [part])
  {
    assert (parts + [part])[..|parts|] == parts;
  }

  lemma RoundApplies(reg: Registry, tags: set<Tag>, k: nat)
    ensures var s := Rounds(reg, Begin(reg, tags), k);
            var ready := ReadySet(reg, s);
            && ready <= s.pending && ready <= reg.Keys && ready * UntagSet(reg) <= s.tags
            && Rounds(reg, Begin(reg, tags), k + 1) == State(Applied(reg, s.tags, ready), s.pending - ready)
  {
    RoundsOnTrack(reg, tags, k);
  }

  lemma GivesUp(reg: Registry, tags: set<Tag>, k: nat)
    requires ReadySet(reg, Rounds(reg, Begin(reg, tags), k)) == {}
    requires Rounds(reg, Begin(reg, tags), k).pending != {}
    ensures !Succeeds(reg, tags)
  {
    var s := Begin(reg, tags);
    forall n: nat ensures Rounds(reg, s, n).pending != {} {
      if n < k {
        PendingShrinks(reg, s, n, k);
      } else {
        StuckStays(reg, s, k, n);
      }
    }
  }

  /* ---- legacy versions ---- */

  /** The tags a legacy version stands for. */
  ghost function VersionSet(legacy: map<int, Tag>, version: int): (r: set<Tag>)
  {
    set v | 2 <= v <= version && v in legacy :: legacy[v]
  }

  /** The tags of a checkpoint that records a legacy version. */
  method VersionTags(legacy: map<int, Tag>, version: int) returns (r: Option<set<Tag>>)
    ensures r.Some? <==> forall v :: 2 <= v <= version ==> v in legacy
    ensures r.Some? ==> r.value == VersionSet(legacy, version)
  {
    var tags: set<Tag>, v := {}, 2;
    while v <= version
      invariant 2 <= v && (v <= version + 1 || v == 2)
      invariant forall w :: 2 <= w < v ==> w in legacy
      invariant tags == VersionSet(legacy, v - 1)
    {
      if v !in legacy { return None; }
      tags := tags + {legacy[v]};
      assert VersionSet(legacy, v) == VersionSet(legacy, v - 1) + {legacy[v]};
      v := v + 1;
    }
    r := Some(tags);
  }

  /** A checkpoint at a legacy version has the scripts of the versions after it pending and none of
      those up to it; with scripts that remove their tags it is the other way around. */
  lemma VersionPendingIff(legacy: map<int, Tag>, reg: Registry, version: int, v: int)
    requires Injective(legacy) && v in legacy && 2 <= v && legacy[v] in reg
    ensures legacy[v] in Begin(reg, VersionSet(legacy, version)).pending <==>
            (if reg[legacy[v]].upgrades then v > version else v <= version)
  {
    assert legacy[v] in VersionSet(legacy, version) <==> v <= version;
  }

  ghost predicate Injective(legacy: map<int, Tag>) {
    forall v, w :: v in legacy && w in legacy && legacy[v] == legacy[w] ==> v == w
  }

  /** No two legacy versions share a script. */
  lemma LegacyInjective(scripts: seq<Script>)
    requires UniqueTags(scripts)
    ensures Injective(LegacyOf(scripts))
  {
    var legacy := LegacyOf(scripts);
    forall v, w | v in legacy && w in legacy && legacy[v] == legacy[w] ensures v == w {
      var a := LegacyHolder(scripts, v);
      var b := LegacyHolder(scripts, w);
      if a != b { UniqueTag(scripts, a, b); }
    }
  }

  /* ---- what a script depends on, in the terms of the script files ---- */

  ghost predicate UniqueVersions(scripts: seq<Script>) {
    forall a, b :: a in scripts && b in scripts && a.legacyVersion.Some? && a.legacyVersion == b.legacyVersion ==>
      a == b
  }

  ghost predicate HasVersion(scripts: seq<Script>, v: int) {
    exists f :: f in scripts && f.legacyVersion == Some(v)
  }

  lemma {:induction false} LegacyHas(scripts: seq<Script>, s: Script)
    requires s in scripts && s.legacyVersion.Some?
    ensures s.legacyVersion.value in LegacyOf(scripts)
  {
    var a, x := scripts[..|scripts| - 1], scripts[|scripts| - 1];
    assert scripts == a + [x];
    if s in a { LegacyHas(a, s); }
  }

  lemma LegacyIff(scripts: seq<Script>, v: int)
    ensures v in LegacyOf(scripts) <==> HasVersion(scripts, v)
  {
    if v in LegacyOf(scripts) { var s := LegacyHolder(scripts, v); }
    if s :| s in scripts && s.legacyVersion == Some(v) { LegacyHas(scripts, s); }
  }

  /** Of several scripts for one legacy version the last one holds it. */
  lemma {:induction false} LegacyIsLast(scripts: seq<Script>, i: nat, v: int)
    requires i < |scripts| && scripts[i].legacyVersion == Some(v)
    requires forall j :: i < j < |scripts| ==> scripts[j].legacyVersion != Some(v)
    ensures v in LegacyOf(scripts) && LegacyOf(scripts)[v] == scripts[i].tag
  {
    if i == |scripts| - 1 {
    } else {
      LegacyIsLast(scripts[..|scripts| - 1], i, v);
    }
  }

  lemma LegacyIs(scripts: seq<Script>, s: Script)
    requires UniqueVersions(scripts) && s in scripts && s.legacyVersion.Some?
    ensures s.legacyVersion.value in LegacyOf(scripts) && LegacyOf(scripts)[s.legacyVersion.value] == s.tag
  {
    LegacyHas(scripts, s);
    var h := LegacyHolder(scripts, s.legacyVersion.value);
  }

  /** A script depends on every script that names it forward. If it holds a legacy version and all the
      versions from 3 up to its own and the one before it are there, it depends on the script of the
      version before it in place of what it says itself. */
  lemma DependsIff(scripts: seq<Script>, s: Script, d: Tag)
    requires UniqueVersions(scripts) && s in scripts
    ensures d in Dependencies(scripts, s) <==>
            || (exists f :: f in scripts && s.tag in f.fwdDepends && f.tag == d)
            || (if && s.legacyVersion.Some? && s.legacyVersion.value >= 3
                   && HasVersion(scripts, s.legacyVersion.value - 1)
                   && forall i :: 3 <= i <= s.legacyVersion.value ==> HasVersion(scripts, i)
                then exists f :: f in scripts && f.legacyVersion == Some(s.legacyVersion.value - 1) && f.tag == d
                else d in s.depends)
  {
    assert d in Forward(scripts, s.tag) <==> exists f :: f in scripts && s.tag in f.fwdDepends && f.tag == d;
    OwnDependsIff(scripts, s, d);
  }

  lemma OwnDependsIff(scripts: seq<Script>, s: Script, d: Tag)
    requires UniqueVersions(scripts) && s in scripts
    ensures d in OwnDepends(LegacyOf(scripts), s) <==>
            if && s.legacyVersion.Some? && s.legacyVersion.value >= 3
               && HasVersion(scripts, s.legacyVersion.value - 1)
               && forall i :: 3 <= i <= s.legacyVersion.value ==> HasVersion(scripts, i)
            then exists f :: f in scripts && f.legacyVersion == Some(s.legacyVersion.value - 1) && f.tag == d
            else d in s.depends
  {
    if s.legacyVersion.Some? {
      var v := s.legacyVersion.value;
      forall i { LegacyIff(scripts, i); }
      LegacyIs(scripts, s);
      if HasVersion(scripts, v - 1) {
        var f :| f in scripts && f.legacyVersion == Some(v - 1);
        LegacyIs(scripts, f);
      }
    }
  }

  /** `reg` is what loading `scripts` gives. */
  ghost predicate LoadedFrom(scripts: seq<Script>, reg: Registry) {
    && UniqueTags(scripts) && reg.Keys == TagsOf(scripts)
    && forall s :: s in scripts ==> ToSet(reg[s.tag].depends) == Dependencies(scripts, s)
  }

  lemma OwnDependsLinked(legacy: map<int, Tag>, s: Script, w: int)
    requires 2 in legacy && Linked(legacy, w) && s.legacyVersion == Some(w) && legacy[w] == s.tag
    ensures w - 1 in legacy && ToSet(OwnDepends(legacy, s)) == {legacy[w - 1]}
  {
    assert w == 3 || w - 1 in legacy;
    var d := legacy[w - 1];
    assert OwnDepends(legacy, s) == [d];
  }

  lemma {:induction false} LegacyDependsOnPrevious(scripts: seq<Script>, legacy: map<int, Tag>, reg: Registry, w: int)
    requires LoadedFrom(scripts, reg) && legacy == LegacyOf(scripts)
    requires 2 in legacy && Linked(legacy, w)
    ensures DependsOnPrevious(legacy, reg, w)
  {
    var s := LegacyHolder(scripts, w);
    OwnDependsLinked(legacy, s, w);
    assert s.tag in TagsOf(scripts);
    assert legacy[w - 1] in ToSet(reg[s.tag].depends);
  }

  ghost predicate DependsOnPrevious(legacy: map<int, Tag>, reg: Registry, w: int) {
    && w in legacy && w - 1 in legacy
    && legacy[w] in reg && legacy[w - 1] in reg[legacy[w]].depends
  }

  lemma {:induction false} ChainInOrder(
    legacy: map<int, Tag>, reg: Registry, version: int, v: int, w: int, k: nat) returns (j: nat)
    requires Injective(legacy) && version < v && 2 <= v < w && v in legacy
    requires forall i :: v < i <= w ==> DependsOnPrevious(legacy, reg, i)
    requires w in legacy && legacy[w] in ReadySet(reg, Rounds(reg, Begin(reg, VersionSet(legacy, version)), k))
    ensures j < k && legacy[v] in ReadySet(reg, Rounds(reg, Begin(reg, VersionSet(legacy, version)), j))
    decreases w
  {
    var tags := VersionSet(legacy, version);
    assert DependsOnPrevious(legacy, reg, w);
    var d := legacy[w - 1];
    DependenciesHold(reg, tags, k, legacy[w], d);
    assert d !in tags;
    var i: nat :| i < k && d in ReadySet(reg, Rounds(reg, Begin(reg, tags), i));
    if w - 1 == v {
      j := i;
    } else {
      j := ChainInOrder(legacy, reg, version, v, w - 1, i);
    }
  }

  /** For a checkpoint at legacy version `version`, a later version is applied in a later round
      than any version before it that was missing. */
  lemma {:induction false} LegacyInOrder(scripts: seq<Script>, legacy: map<int, Tag>, reg: Registry,
                      version: int, v: int, w: int, k: nat) returns (j: nat)
    requires LoadedFrom(scripts, reg) && legacy == LegacyOf(scripts)
    requires 2 in legacy && Linked(legacy, w) && version < v && 2 <= v < w
    requires legacy[w] in ReadySet(reg, Rounds(reg, Begin(reg, VersionSet(legacy, version)), k))
    ensures v in legacy && j < k
    ensures legacy[v] in ReadySet(reg, Rounds(reg, Begin(reg, VersionSet(legacy, version)), j))
  {
    LegacyInjective(scripts);
    assert v == 2 || v in legacy;
    forall i | v < i <= w ensures DependsOnPrevious(legacy, reg, i) {
      LegacyDependsOnPrevious(scripts, legacy, reg, i);
    }
    j := ChainInOrder(legacy, reg, version, v, w, k);
  }
}
