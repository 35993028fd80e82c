/** Decimal numbers, splitting, joining and stripping, as Python's `%d`, `int`, `split`, `join` and
    `strip` do them on plain text. */
module Text {
  import opened Wrappers

  /* ---- decimal numbers ---- */

  predicate IsDigit(c: char) { '0' <= c <= '9' }

  ghost predicate AllDigits(s: string) {
    forall i :: 0 <= i < |s| ==> IsDigit(s[i])
  }

  function DigitChar(d: nat): (c: char)
    requires d < 10
    ensures IsDigit(c) && c as int - '0' as int == d
  {
    '0' + d as char
  }

  function Digits(n: nat): (s: string)
    ensures s != "" && AllDigits(s)
  {
    if n < 10 then [DigitChar(n)] else Digits(n / 10) + [DigitChar(n % 10)]
  }

  /** The number a string of digits stands for. */
  function DigitsValue(s: string): (n: nat)
    requires AllDigits(s)
  {
    if s == "" then 0 else 10 * DigitsValue(s[..|s| - 1]) + (s[|s| - 1] as int - '0' as int)
  }

  /** A non-empty string of digits as a number. */
  function ParseNat(s: string): (r: Option<nat>)
  {
    if s != "" && forall i :: 0 <= i < |s| ==> IsDigit(s[i]) then Some(DigitsValue(s)) else None
  }

  function PrintInt(n: int): (s: string)
    ensures s != ""
  {
    if n < 0 then "-" + Digits(-n) else Digits(n)
  }

  lemma {:induction false} DigitsRoundTrip(n: nat)
    ensures ParseNat(Digits(n)) == Some(n)
  {
    if n >= 10 {
      DigitsRoundTrip(n / 10);
      var s := Digits(n);
      assert s[..|s| - 1] == Digits(n / 10);
    } else {
      var s := Digits(n);
      assert s[..|s| - 1] == "" && DigitsValue("") == 0;
      assert DigitsValue(s) == s[0] as int - '0' as int;
    }
  }

  lemma DigitsInjective(m: nat, n: nat)
    requires Digits(m) == Digits(n)
    ensures m == n
  {
    DigitsRoundTrip(m);
    DigitsRoundTrip(n);
  }

  function Pow10(k: nat): (r: nat)
    ensures r > 0
  {
    if k == 0 then 1 else 10 * Pow10(k - 1)
  }

  /** The number of digits tells the magnitude. */
  lemma {:induction false} DigitsLength(n: nat, k: nat)
    requires k >= 1
    ensures |Digits(n)| <= k <==> n < Pow10(k)
  {
    if k == 1 {
      assert Pow10(1) == 10 * Pow10(0);
    } else if n >= 10 {
      DigitsLength(n / 10, k - 1);
      var p := Pow10(k - 1);
      assert n < 10 * p <==> n / 10 < p;
    } else {
      assert Pow10(k) == 10 * Pow10(k - 1);
    }
  }

  lemma DigitsLengthMonotone(m: nat, n: nat)
    requires m <= n
    ensures |Digits(m)| <= |Digits(n)|
  {
    DigitsLength(n, |Digits(n)|);
    DigitsLength(m, |Digits(n)|);
  }

  /* ---- splitting ---- */

  function Split(s: string, sep: char): (r: seq<string>)
    ensures |r| >= 1
  {
    if s == "" then [""]
    else
      var r := Split(s[1..], sep);
      if s[0] == sep then [""] + r else [[s[0]] + r[0]] + r[1..]
  }

  /** The part before the first separator is split off. */
  lemma {:induction false} SplitFirst(a: string, sep: char, b: string)
    requires sep !in a
    ensures Split(a + [sep] + b, sep) == [a] + Split(b, sep)
  {
    if a == "" {
      assert a + [sep] + b == [sep] + b;
      assert ([sep] + b)[1..] == b;
    } else {
      var s := a + [sep] + b;
      assert s[1..] == a[1..] + [sep] + b;
      SplitFirst(a[1..], sep, b);
      assert a == [a[0]] + a[1..];
      var r := Split(s[1..], sep);
      assert r == [a[1..]] + Split(b, sep);
      assert r[1..] == Split(b, sep);
    }
  }

  lemma {:induction false} SplitNone(a: string, sep: char)
    requires sep !in a
    ensures Split(a, sep) == [a]
  {
    if a == "" {
    } else {
      SplitNone(a[1..], sep);
      assert a == [a[0]] + a[1..];
    }
  }

  function Join(parts: seq<string>, sep: char): (s: string)
    requires parts != []
  {
    if |parts| == 1 then parts[0] else parts[0] + [sep] + Join(parts[1..], sep)
  }

  ghost predicate Free(parts: seq<string>, sep: char) {
    forall i :: 0 <= i < |parts| ==> sep !in parts[i]
  }

  /** Splitting undoes joining. */
  lemma {:induction false} SplitJoin(parts: seq<string>, sep: char)
    requires parts != [] && Free(parts, sep)
    ensures Split(Join(parts, sep), sep) == parts
  {
    if |parts| == 1 {
      SplitNone(parts[0], sep);
      assert parts == [parts[0]];
    } else {
      SplitFirst(parts[0], sep, Join(parts[1..], sep));
      SplitJoin(parts[1..], sep);
      assert parts == [parts[0]] + parts[1..];
    }
  }

  lemma {:induction false} JoinSnoc(parts: seq<string>, p: string, sep: char)
    requires parts != []
    ensures Join(parts + [p], sep) == Join(parts, sep) + [sep] + p
  {
    var all := parts + [p];
    assert all[1..] == parts[1..] + [p];
    if |parts| == 1 {
      assert all[1..] == [p];
    } else {
      JoinSnoc(parts[1..], p, sep);
      var j := Join(parts[1..], sep);
      assert parts[0] + [sep] + (j + [sep] + p) == parts[0] + [sep] + j + [sep] + p;
    }
  }

  /** What joining adds to the characters of the parts is the separator. */
  lemma {:induction false} JoinCharacters(parts: seq<string>, sep: char, c: char)
    requires parts != [] && c != sep && Free(parts, c)
    ensures c !in Join(parts, sep)
  {
    if |parts| == 1 {
    } else {
      JoinCharacters(parts[1..], sep, c);
    }
  }

  lemma DigitsFree(n: nat, c: char)
    requires !IsDigit(c)
    ensures c !in Digits(n)
  {
  }

  /* ---- stripping ---- */

  /** The ASCII characters that Python takes for white space. */
  predicate IsSpace(c: char) {
    c == ' ' || 9 as char <= c <= 13 as char || 28 as char <= c <= 31 as char
  }

  function StripLeft(s: string): (r: string)
  {
    if s != "" && IsSpace(s[0]) then StripLeft(s[1..]) else s
  }

  function StripRight(s: string): (r: string)
  {
    if s != "" && IsSpace(s[|s| - 1]) then StripRight(s[..|s| - 1]) else s
  }

  function Strip(s: string): (r: string) { StripRight(StripLeft(s)) }

  lemma StripNone(s: string)
    requires s != "" ==> !IsSpace(s[0]) && !IsSpace(s[|s| - 1])
    ensures Strip(s) == s
  {
  }

  ghost predicate AllSpaces(s: string) {
    forall i :: 0 <= i < |s| ==> White(s[i])
  }

  /** Blank, tab, line feed, carriage return, vertical tab, form feed and the four separators. */
  ghost predicate White(c: char) {
    || c == ' ' || c == '\t' || c == '\n' || c == '\r' || c == 11 as char || c == 12 as char
    || c == 28 as char || c == 29 as char || c == 30 as char || c == 31 as char
  }

  lemma SpacesAreSpace(s: string)
    ensures AllSpaces(s) <==> forall i :: 0 <= i < |s| ==> IsSpace(s[i])
  {
    assert forall c: char :: White(c) <==> IsSpace(c);
  }

  lemma {:induction false} StripLeftSpaces(a: string, s: string)
    requires AllSpaces(a) && (s != "" ==> !IsSpace(s[0]))
    ensures StripLeft(a + s) == s
  {
    if a == "" {
      assert a + s == s;
    } else {
      SpacesAreSpace(a);
      assert (a + s)[1..] == a[1..] + s;
      StripLeftSpaces(a[1..], s);
    }
  }

  lemma {:induction false} StripRightSpaces(s: string, b: string)
    requires AllSpaces(b) && (s != "" ==> !IsSpace(s[|s| - 1]))
    ensures StripRight(s + b) == s
  {
    if b == "" {
      assert s + b == s;
    } else {
      SpacesAreSpace(b);
      assert (s + b)[..|s + b| - 1] == s + b[..|b| - 1];
      StripRightSpaces(s, b[..|b| - 1]);
    }
  }

  /** The spaces around a text, and only those, are taken off. */
  lemma StripAround(a: string, s: string, b: string)
    requires AllSpaces(a) && AllSpaces(b) && s != "" && !IsSpace(s[0]) && !IsSpace(s[|s| - 1])
    ensures Strip(a + s + b) == s
  {
    assert a + s + b == a + (s + b);
    StripLeftSpaces(a, s + b);
    StripRightSpaces(s, b);
  }

  lemma StripNewline(s: string)
    requires s != "" && !IsSpace(s[0]) && !IsSpace(s[|s| - 1])
    ensures Strip(s + "\n") == s
  {
    StripAround("", s, "\n");
    assert "" + s + "\n" == s + "\n";
  }

  /* ---- numbers as `int` reads them ---- */

  /** Digits, with single underscores allowed between them. */
  predicate DigitGroups(s: string) {
    && s != "" && IsDigit(s[0]) && IsDigit(s[|s| - 1])
    && (forall i :: 0 <= i < |s| ==> IsDigit(s[i]) || s[i] == '_')
    && (forall i, j :: 0 <= i < |s| && 0 <= j < |s| && j == i + 1 ==> s[i] != '_' || s[j] != '_')
  }

  function GroupsValue(s: string): (n: nat)
  {
    if s == "" then 0
    else if IsDigit(s[|s| - 1]) then 10 * GroupsValue(s[..|s| - 1]) + (s[|s| - 1] as int - '0' as int)
    else GroupsValue(s[..|s| - 1])
  }

  function ParseGroups(s: string): (r: Option<nat>)
  {
    if DigitGroups(s) then Some(GroupsValue(s)) else None
  }

  lemma NoGroups(s: string, i: nat)
    requires i < |s| && !IsDigit(s[i]) && s[i] != '_'
    ensures ParseGroups(s) == None
  {
  }

  /** A number with spaces around it and a sign allowed. */
  function ParseInt(s: string): (r: Option<int>)
  {
    var t := Strip(s);
    if t == "" then None
    else if t[0] == '-' then
      var n :- ParseGroups(t[1..]);
      var v: int := n;
      Some(-v)
    else
      var n :- ParseGroups(if t[0] == '+' then t[1..] else t);
      Some(n)
  }

  lemma {:induction false} PlainGroups(s: string)
    requires AllDigits(s)
    ensures GroupsValue(s) == DigitsValue(s)
  {
    if s == "" {
    } else {
      PlainGroups(s[..|s| - 1]);
    }
  }

  lemma DigitsAreGroups(n: nat)
    ensures ParseGroups(Digits(n)) == Some(n)
  {
    DigitsRoundTrip(n);
    PlainGroups(Digits(n));
  }

  /** A printed number is read as itself. */
  lemma IntRoundTrip(n: int)
    ensures ParseInt(PrintInt(n)) == Some(n)
  {
    if n < 0 {
      NegativeRoundTrip(n);
    } else {
      PlainText(n);
      DigitsAreGroups(n);
    }
  }

  lemma NegativeRoundTrip(n: int)
    requires n < 0
    ensures ParseInt(PrintInt(n)) == Some(n)
  {
    SignedText(n);
    DigitsAreGroups(-n);
    var s := PrintInt(n);
    assert ParseGroups(s[1..]) == Some(-n);
  }

  lemma ParseBare(a: string, t: string, b: string)
    requires AllSpaces(a) && AllSpaces(b) && t != "" && !IsSpace(t[0]) && !IsSpace(t[|t| - 1])
    ensures ParseInt(a + t + b) == ParseInt(t)
  {
    StripAround(a, t, b);
    StripNone(t);
  }

  lemma ParseSigned(sign: char, d: string, n: nat)
    requires (sign == '+' || sign == '-') && ParseGroups(d) == Some(n) && !IsSpace(d[|d| - 1])
    ensures ParseInt([sign] + d) == Some(if sign == '-' then 0 - n else n)
  {
    var t := [sign] + d;
    assert t[0] == sign && t[1..] == d && t[|t| - 1] == d[|d| - 1];
    StripNone(t);
  }

  lemma DigitEnds(n: nat)
    ensures var d := Digits(n); IsDigit(d[0]) && IsDigit(d[|d| - 1])
  {
  }

  lemma SignedAsWritten(a: string, sign: char, n: nat, b: string)
    requires AllSpaces(a) && AllSpaces(b) && (sign == '+' || sign == '-')
    ensures ParseInt(a + ([sign] + Digits(n)) + b) == Some(if sign == '-' then 0 - n else n)
  {
    DigitEnds(n);
    DigitsAreGroups(n);
    ParseSigned(sign, Digits(n), n);
    ParseBare(a, [sign] + Digits(n), b);
  }

  /** Spaces around a number and a sign before it are read as such. */
  lemma IntAsWritten(a: string, sign: string, n: nat, b: string)
    requires AllSpaces(a) && AllSpaces(b) && (sign == "" || sign == "+" || sign == "-")
    ensures ParseInt(a + (sign + Digits(n)) + b) == Some(if sign == "-" then 0 - n else n)
  {
    if sign == "" {
      assert sign + Digits(n) == Digits(n);
      DigitEnds(n);
      ParseBare(a, Digits(n), b);
      IntRoundTrip(n);
    } else {
      assert sign == [sign[0]];
      SignedAsWritten(a, sign[0], n, b);
    }
  }

  lemma {:induction false} GroupsSkip(s: string, t: string)
    ensures GroupsValue(s + "_" + t) == GroupsValue(s + t)
  {
    if t == "" {
      assert (s + "_" + t)[..|s|] == s && s + t == s;
    } else {
      var n := |t| - 1;
      assert (s + "_" + t)[..|s| + 1 + n] == s + "_" + t[..n] && (s + t)[..|s| + n] == s + t[..n];
      GroupsSkip(s, t[..n]);
    }
  }

  /** An underscore between digits makes no difference. */
  lemma UnderscoreSkipped(s: string, t: string)
    requires s != "" && t != "" && AllDigits(s) && AllDigits(t)
    ensures ParseGroups(s + "_" + t) == ParseGroups(s + t) == Some(DigitsValue(s + t))
  {
    GroupsSkip(s, t);
    PlainGroups(s + t);
    var u := s + "_" + t;
    assert forall i :: 0 <= i < |u| && i != |s| ==> IsDigit(u[i]);
  }

  /** At the start, at the end and next to another one it is not allowed. */
  lemma UnderscoreRefused(s: string, t: string)
    ensures ParseGroups("_" + s) == None && ParseGroups(s + "_") == None && ParseGroups(s + "__" + t) == None
  {
    assert ("_" + s)[0] == '_' && (s + "_")[|s|] == '_';
    var u := s + "__" + t;
    assert u[|s|] == '_' && u[|s| + 1] == '_';
  }

  lemma PlainText(n: nat)
    ensures var s := Digits(n); Strip(s) == s && s[0] != '-' && s[0] != '+'
  {
    var s := Digits(n);
    assert IsDigit(s[0]) && IsDigit(s[|s| - 1]);
    StripNone(s);
  }

  lemma SignedText(n: int)
    requires n < 0
    ensures var s := PrintInt(n); Strip(s) == s && s[0] == '-' && s[1..] == Digits(-n)
  {
    var s := PrintInt(n);
    assert s[|s| - 1] == Digits(-n)[|Digits(-n)| - 1] && IsDigit(s[|s| - 1]);
    StripNone(s);
  }

  /* ---- lines ---- */

  /** The lines, each followed by a line end. */
  function Unlines(ls: seq<string>): (s: string)
  {
    if ls == [] then "" else ls[0] + "\n" + Unlines(ls[1..])
  }

  function WithEnds(parts: seq<string>): (r: seq<string>)
  {
    if parts == [] then []
    else if |parts| == 1 then (if parts[0] == "" then [] else [parts[0]])
    else [parts[0] + "\n"] + WithEnds(parts[1..])
  }

  /** The lines of a text, with their line ends. */
  function Lines(text: string): (r: seq<string>) { WithEnds(Split(text, '\n')) }

  function Terminated(ls: seq<string>): (r: seq<string>)
    ensures |r| == |ls| && forall i :: 0 <= i < |ls| ==> r[i] == ls[i] + "\n"
  {
    seq(|ls|, i requires 0 <= i < |ls| => ls[i] + "\n")
  }

  lemma {:induction false} LinesUnlines(ls: seq<string>)
    requires Free(ls, '\n')
    ensures Lines(Unlines(ls)) == Terminated(ls)
  {
    if ls == [] {
    } else {
      var rest := Unlines(ls[1..]);
      LinesUnlines(ls[1..]);
      SplitFirst(ls[0], '\n', rest);
      var parts := Split(rest, '\n');
      assert ([ls[0]] + parts)[1..] == parts;
      assert Terminated(ls) == [ls[0] + "\n"] + Terminated(ls[1..]);
    }
  }

  lemma {:induction false} UnlinesSnoc(ls: seq<string>, l: string)
    ensures Unlines(ls + [l]) == Unlines(ls) + l + "\n"
  {
    if ls == [] {
      assert ls + [l] == [l];
      assert [l][1..] == [];
    } else {
      assert (ls + [l])[1..] == ls[1..] + [l];
      UnlinesSnoc(ls[1..], l);
    }
  }

  /* ---- parsing every line ---- */

  /** The results of `f`, if it has one for every element. */
  function Each<A, B>(f: A -> Option<B>, xs: seq<A>): (r: Option<seq<B>>)
  {
    if xs == [] then Some([])
    else
      var ys :- Each(f, xs[..|xs| - 1]);
      var y :- f(xs[|xs| - 1]);
      Some(ys + [y])
  }

  lemma {:induction false} EachSome<A, B>(f: A -> Option<B>, xs: seq<A>, ys: seq<B>)
    requires |xs| == |ys| && forall i :: 0 <= i < |xs| ==> f(xs[i]) == Some(ys[i])
    ensures Each(f, xs) == Some(ys)
  {
    if xs == [] {
    } else {
      EachSome(f, xs[..|xs| - 1], ys[..|ys| - 1]);
      assert ys == ys[..|ys| - 1] + [ys[|ys| - 1]];
    }
  }

  lemma {:induction false} EachNone<A, B>(f: A -> Option<B>, xs: seq<A>, n: nat)
    requires n < |xs| && f(xs[n]) == None
    ensures Each(f, xs) == None
  {
    if n == |xs| - 1 {
    } else {
      EachNone(f, xs[..|xs| - 1], n);
    }
  }

  lemma EachSnoc<A, B>(f: A -> Option<B>, xs: seq<A>, x: A)
    requires Each(f, xs).Some? && f(x).Some?
    ensures Each(f, xs + [x]) == Some(Each(f, xs).value + [f(x).value])
  {
    assert (xs + [x])[..|xs|] == xs;
  }

  /** The next of the elements. */
  lemma EachNext<A, B>(f: A -> Option<B>, xs: seq<A>, i: nat, ys: seq<B>, y: B)
    requires i < |xs| && Each(f, xs[..i]) == Some(ys) && f(xs[i]) == Some(y)
    ensures Each(f, xs[..i + 1]) == Some(ys + [y])
  {
    EachSnoc(f, xs[..i], xs[i]);
    assert xs[..i + 1] == xs[..i] + [xs[i]];
  }
}
