/**
 Renaming the sections of merged checkpoints: every "cpu" in a section name is followed by the
 index of the checkpoint, written with a fixed number of digits.
 */
module SectionNames {
  import opened Text

  const CPU := "cpu"

  predicate StartsWithCpu(s: string) { |s| >= 3 && s[0] == 'c' && s[1] == 'p' && s[2] == 'u' }

  predicate HasCpu(s: string) { s != "" && (StartsWithCpu(s) || HasCpu(s[1..])) }

  /** The names that have "cpu" in them, at whatever place. */
  lemma {:induction false} HasCpuIff(s: string)
    ensures HasCpu(s) <==> exists i :: 0 <= i <= |s| - 3 && s[i..][..3] == "cpu"
  {
    if s == "" {
    } else {
      HasCpuIff(s[1..]);
      assert |s| >= 3 ==> (StartsWithCpu(s) <==> s[0..][..3] == "cpu");
      if i :| 0 <= i <= |s[1..]| - 3 && s[1..][i..][..3] == "cpu" {
        assert s[1..][i..] == s[i + 1..];
      }
      if i :| 0 < i <= |s| - 3 && s[i..][..3] == "cpu" {
        assert s[1..][i - 1..] == s[i..];
      }
    }
  }

  lemma {:induction false} NoCpuWithoutC(s: string)
    requires 'c' !in s
    ensures !HasCpu(s)
  {
    if s == "" {
    } else {
      NoCpuWithoutC(s[1..]);
    }
  }

  /** Every "cpu" of `s`, from the left, with `tag` put behind it. */
  function Rename(tag: string, s: string): (r: string)
  {
    if s == "" then ""
    else if StartsWithCpu(s) then CPU + tag + Rename(tag, s[3..])
    else [s[0]] + Rename(tag, s[1..])
  }

  /** Takes `n` characters out behind every "cpu". */
  function Unname(n: nat, s: string): (r: string)
  {
    if s == "" then ""
    else if StartsWithCpu(s) then CPU + (if |s| >= 3 + n then Unname(n, s[3 + n..]) else "")
    else [s[0]] + Unname(n, s[1..])
  }

  /** The `n` characters behind the first "cpu". */
  function TagOf(n: nat, s: string): (r: string)
  {
    if s == "" then ""
    else if StartsWithCpu(s) then (if |s| >= 3 + n then s[3..3 + n] else "")
    else TagOf(n, s[1..])
  }

  /** Renaming makes no new "cpu". */
  lemma RenameStart(tag: string, s: string)
    requires s != "" && !StartsWithCpu(s)
    ensures Rename(tag, s) != "" && !StartsWithCpu(Rename(tag, s))
    ensures Rename(tag, s)[1..] == Rename(tag, s[1..])
  {
    var r := Rename(tag, s[1..]);
    assert Rename(tag, s) == [s[0]] + r;
    if s[1..] != "" && !StartsWithCpu(s[1..]) {
      var q := Rename(tag, s[2..]);
      assert s[1..][1..] == s[2..];
      assert r == [s[1]] + q;
      assert q != "" ==> s[2..] != "" && q[0] == s[2];
    }
  }

  /** A name without "cpu" is kept. */
  lemma {:induction false} RenameNone(tag: string, s: string)
    requires !HasCpu(s)
    ensures Rename(tag, s) == s
  {
    if s == "" {
    } else {
      RenameNone(tag, s[1..]);
    }
  }

  /** The tag is put behind the first "cpu" of a name, and what follows is renamed in its turn. */
  lemma {:induction false} RenameFirst(tag: string, a: string, b: string)
    requires !HasCpu(a)
    ensures Rename(tag, a + "cpu" + b) == a + "cpu" + tag + Rename(tag, b)
    ensures HasCpu(a + "cpu" + b)
  {
    var s := a + "cpu" + b;
    if a == "" {
      assert s == "cpu" + b && s[3..] == b;
    } else {
      assert s[1..] == a[1..] + "cpu" + b;
      RenameFirst(tag, a[1..], b);
      NotSplit(a, b);
    }
  }

  /** No "cpu" starts in what comes before one. */
  lemma NotSplit(a: string, b: string)
    requires a != "" && !HasCpu(a)
    ensures !StartsWithCpu(a + "cpu" + b)
  {
    var s := a + "cpu" + b;
    assert s[0] == a[0];
    if |a| == 1 {
      assert s[1] == 'c';
    } else if |a| == 2 {
      assert s[2] == 'c';
    } else {
      assert s[1] == a[1] && s[2] == a[2];
    }
  }

  /** Taking the tags out again gives the old name. */
  lemma {:induction false} UnnameRename(tag: string, s: string)
    ensures Unname(|tag|, Rename(tag, s)) == s
  {
    if s == "" {
    } else {
      var r := Rename(tag, s);
      if StartsWithCpu(s) {
        UnnameRename(tag, s[3..]);
        assert r[3 + |tag|..] == Rename(tag, s[3..]);
        assert s == CPU + s[3..];
      } else {
        RenameStart(tag, s);
        UnnameRename(tag, s[1..]);
        assert s == [s[0]] + s[1..];
      }
    }
  }

  lemma {:induction false} TagOfRename(tag: string, s: string)
    requires HasCpu(s)
    ensures TagOf(|tag|, Rename(tag, s)) == tag
    ensures HasCpu(Rename(tag, s))
  {
    var r := Rename(tag, s);
    if StartsWithCpu(s) {
      assert r[3..3 + |tag|] == tag;
    } else {
      RenameStart(tag, s);
      TagOfRename(tag, s[1..]);
    }
  }

  /** With tags of one length, the new name tells the tag and the old name. */
  lemma {:induction false} RenameInjective(a: string, s: string, b: string, t: string)
    requires |a| == |b| && HasCpu(s) && HasCpu(t) && Rename(a, s) == Rename(b, t)
    ensures a == b && s == t
  {
    TagOfRename(a, s);
    TagOfRename(b, t);
    UnnameRename(a, s);
    UnnameRename(b, t);
  }

  /* ---- zero-filled indices ---- */

  function Zeros(n: nat): (s: string)
    ensures |s| == n && forall i :: 0 <= i < n ==> s[i] == '0'
  {
    seq(n, _ => '0')
  }

  function Zfill(n: nat, width: nat): (s: string)
  {
    var d := Digits(n);
    if |d| >= width then d else Zeros(width - |d|) + d
  }

  lemma {:induction false} LeadingZeros(z: string, d: string)
    requires AllDigits(d) && forall i :: 0 <= i < |z| ==> z[i] == '0'
    ensures AllDigits(z + d) && DigitsValue(z + d) == DigitsValue(d)
    decreases |d|, |z|
  {
    if d == "" {
      assert z + d == z;
      if z != "" { LeadingZeros(z[..|z| - 1], d); assert z[..|z| - 1] + d == z[..|z| - 1]; }
    } else {
      assert (z + d)[..|z + d| - 1] == z + d[..|d| - 1];
      LeadingZeros(z, d[..|d| - 1]);
    }
  }

  lemma ZfillFacts(n: nat, width: nat)
    ensures AllDigits(Zfill(n, width)) && DigitsValue(Zfill(n, width)) == n
    ensures |Digits(n)| <= width ==> |Zfill(n, width)| == width
  {
    DigitsRoundTrip(n);
    var d := Digits(n);
    if |d| < width { LeadingZeros(Zeros(width - |d|), d); }
  }

  /** The digits needed for the indices of `count` checkpoints. */
  function NumDigits(count: nat): (r: nat)
    requires count > 0
  {
    |Digits(count - 1)|
  }

  function NewName(count: nat, i: nat, s: string): (r: string)
    requires i < count
  {
    Rename(Zfill(i, NumDigits(count)), s)
  }

  /** A name with one "cpu" gets the index of the checkpoint behind it. */
  lemma NewNameOfOne(count: nat, i: nat, a: string, b: string)
    requires i < count && !HasCpu(a) && !HasCpu(b)
    ensures HasCpu(a + "cpu" + b)
    ensures NewName(count, i, a + "cpu" + b) == a + "cpu" + Zfill(i, |Digits(count - 1)|) + b
  {
    RenameFirst(Zfill(i, NumDigits(count)), a, b);
    RenameNone(Zfill(i, NumDigits(count)), b);
  }

  /** Renamed sections of different checkpoints, or different sections of one, never collide. */
  lemma NewNameInjective(count: nat, i: nat, s: string, j: nat, t: string)
    requires i < count && j < count && HasCpu(s) && HasCpu(t)
    requires NewName(count, i, s) == NewName(count, j, t)
    ensures i == j && s == t
  {
    IndexTag(count, i);
    IndexTag(count, j);
    RenameInjective(Zfill(i, NumDigits(count)), s, Zfill(j, NumDigits(count)), t);
  }

  lemma IndexTag(count: nat, i: nat)
    requires i < count
    ensures var tag := Zfill(i, NumDigits(count));
            |tag| == NumDigits(count) && AllDigits(tag) && DigitsValue(tag) == i
  {
    DigitsLengthMonotone(i, count - 1);
    ZfillFacts(i, NumDigits(count));
  }
}
