/**
 Binding the ports of a configuration. Every connection is listed in both directions; one pass
 binds a connection when both its ports are at the index that is next in line, and the pass fails
 unless half of the listed connections have been bound.
 */
module PortBinder {
  import opened Wrappers
  import opened Seqs

  /** Port `name` of object `owner`, at a position of its vector of peers. */
  datatype Port = Port(owner: string, name: string, index: nat)
  datatype Key = Key(owner: string, name: string)
  datatype Connection = Connection(from: Port, to: Port)

  function KeyOf(p: Port): (k: Key) { Key(p.owner, p.name) }

  function Rev(c: Connection): (r: Connection) { Connection(c.to, c.from) }

  /* ---- the pass as a function of the processing order ---- */

  /** How many bindings the port `k` takes part in. */
  function Uses(made: seq<Connection>, k: Key): (n: nat)
  {
    if made == [] then 0
    else
      var c := made[|made| - 1];
      Uses(made[..|made| - 1], k)
        + (if KeyOf(c.from) == k then 1 else 0) + (if KeyOf(c.to) == k then 1 else 0)
  }

  /** Both ports of `c` are next in line after the bindings `made`. */
  predicate Fits(made: seq<Connection>, c: Connection) {
    Uses(made, KeyOf(c.from)) == c.from.index && Uses(made, KeyOf(c.to)) == c.to.index
  }

  function Greedy(order: seq<Connection>): (made: seq<Connection>)
  {
    if order == [] then []
    else
      var made, c := Greedy(order[..|order| - 1]), order[|order| - 1];
      if Fits(made, c) then made + [c] else made
  }

  /* ---- what the caller must list ---- */

  /** Every connection once, in both directions, and none from a port to itself. */
  ghost predicate Listed(cs: seq<Connection>) {
    && Distinct(cs)
    && (forall c :: c in cs ==> Rev(c) in cs)
    && (forall c :: c in cs ==> c.from != c.to)
  }

  /** Each binding was made when both its ports were next in line. */
  ghost predicate ValidBinding(made: seq<Connection>) {
    forall i :: 0 <= i < |made| ==> Fits(made[..i], made[i]) && made[i].from != made[i].to
  }

  ghost predicate HasPort(made: seq<Connection>, p: Port) {
    exists c :: c in made && (c.from == p || c.to == p)
  }

  /* ---- each port's bindings are numbered without gap or repeat ---- */

  lemma ValidSnoc(made: seq<Connection>, c: Connection)
    ensures ValidBinding(made + [c]) <==> ValidBinding(made) && Fits(made, c) && c.from != c.to
  {
    var all := made + [c];
    assert all[..|made|] == made && all[|made|] == c;
    assert forall i :: 0 <= i < |made| ==> all[..i] == made[..i] && all[i] == made[i];
    if ValidBinding(all) {
      forall i | 0 <= i < |made| ensures Fits(made[..i], made[i]) && made[i].from != made[i].to {
        assert Fits(all[..i], all[i]);
      }
      assert Fits(all[..|made|], all[|made|]);
    }
  }

  lemma UsesSnoc(made: seq<Connection>, c: Connection, k: Key)
    ensures Uses(made + [c], k) ==
            Uses(made, k) + (if KeyOf(c.from) == k then 1 else 0) + (if KeyOf(c.to) == k then 1 else 0)
  {
    assert (made + [c])[..|made|] == made;
  }

  lemma UsesBoth(made: seq<Connection>, c: Connection)
    ensures forall k :: Uses(made + [c], k) ==
              Uses(made, k) + (if KeyOf(c.from) == k then 1 else 0) + (if KeyOf(c.to) == k then 1 else 0)
  {
    assert (made + [c])[..|made|] == made;
  }

  /** A port is bound at exactly the indices below its number of bindings. */
  lemma {:induction false} PortsFilled(made: seq<Connection>, p: Port)
    requires ValidBinding(made)
    ensures HasPort(made, p) <==> p.index < Uses(made, KeyOf(p))
  {
    if made == [] {
    } else {
      var a, c := made[..|made| - 1], made[|made| - 1];
      assert made == a + [c];
      ValidSnoc(a, c);
      PortsFilled(a, p);
      if HasPort(a, p) {
        var e :| e in a && (e.from == p || e.to == p);
        assert e in made;
      }
      if c.from == p || c.to == p {
        assert c in made;
      }
    }
  }

  lemma ValidPrefix(s: seq<Connection>, n: nat)
    requires ValidBinding(s) && n <= |s|
    ensures ValidBinding(s[..n])
  {
    forall i | 0 <= i < n ensures Fits(s[..n][..i], s[..n][i]) && s[..n][i].from != s[..n][i].to {
      assert s[..n][..i] == s[..i];
      assert Fits(s[..i], s[i]);
    }
  }

  /** No two bindings share a port. */
  lemma {:induction false} PortBoundOnce(made: seq<Connection>, i: nat, j: nat)
    requires ValidBinding(made) && i < j < |made|
    ensures made[i] != made[j] && made[i] != Rev(made[j])
    ensures made[i].from != made[j].from && made[i].from != made[j].to
    ensures made[i].to != made[j].from && made[i].to != made[j].to
  {
    var a := made[..j];
    assert a[i] == made[i];
    ValidPrefix(made, j);
    PortsFilled(a, made[i].from);
    PortsFilled(a, made[i].to);
    assert a[i] in a;
    assert Fits(made[..j], made[j]);
  }

  /* ---- counting both directions ---- */

  function Reversed(s: seq<Connection>): (r: seq<Connection>)
    ensures |r| == |s| && forall i :: 0 <= i < |s| ==> r[i] == Rev(s[i])
  {
    seq(|s|, i requires 0 <= i < |s| => Rev(s[i]))
  }

  function Both(made: seq<Connection>): (r: seq<Connection>) { made + Reversed(made) }

  lemma BothDistinct(made: seq<Connection>)
    requires ValidBinding(made)
    ensures Distinct(Both(made))
  {
    forall i, j | 0 <= i < j < |made| ensures made[i] != made[j] { BothDiffer(made, i, j); }
    forall i, j | 0 <= i < j < |made| ensures Rev(made[i]) != Rev(made[j]) { BothDiffer(made, i, j); }
    forall c | c in made && c in Reversed(made) ensures false {
      var i :| 0 <= i < |made| && made[i] == c;
      var j :| 0 <= j < |made| && Reversed(made)[j] == c;
      BothDiffer(made, i, j);
    }
    DistinctConcat(made, Reversed(made));
  }

  lemma BothDiffer(made: seq<Connection>, k: nat, m: nat)
    requires ValidBinding(made) && k < |made| && m < |made|
    ensures made[k] != Rev(made[m])
    ensures k != m ==> made[k] != made[m] && Rev(made[k]) != Rev(made[m])
  {
    if k < m {
      PortBoundOnce(made, k, m);
    } else if m < k {
      PortBoundOnce(made, m, k);
    }
  }

  lemma BothListed(cs: seq<Connection>, made: seq<Connection>)
    requires Listed(cs) && forall c :: c in made ==> c in cs
    ensures ToSet(Both(made)) <= ToSet(cs)
  {
    forall c | c in Both(made) ensures c in cs {
      var i :| 0 <= i < |Both(made)| && Both(made)[i] == c;
      if i >= |made| {
        assert made[i - |made|] in made;
        assert Rev(made[i - |made|]) == c;
      }
    }
  }

  /** Binding half of the listed connections binds each in exactly one direction. */
  lemma HalfIsAll(cs: seq<Connection>, made: seq<Connection>)
    requires Listed(cs) && ValidBinding(made) && forall c :: c in made ==> c in cs
    ensures 2 * |made| <= |cs|
    ensures 2 * |made| == |cs| <==> ToSet(Both(made)) == ToSet(cs)
  {
    BothDistinct(made);
    BothListed(cs, made);
    DistinctCount(Both(made));
    DistinctCount(cs);
    assert |ToSet(cs)| == |ToSet(Both(made))| + |ToSet(cs) - ToSet(Both(made))|;
    if 2 * |made| == |cs| {
      SubsetSize(ToSet(Both(made)), ToSet(cs));
    }
  }

  lemma InBoth(made: seq<Connection>, c: Connection)
    ensures c in Both(made) <==> c in made || Rev(c) in made
  {
    var b := Both(made);
    if i :| 0 <= i < |made| && made[i] == c { assert b[i] == c; }
    if i :| 0 <= i < |made| && made[i] == Rev(c) { assert b[|made| + i] == c; }
    if c in b {
      var i :| 0 <= i < |b| && b[i] == c;
      if i >= |made| { assert made[i - |made|] == Rev(c); }
    }
  }

  lemma OneDirection(made: seq<Connection>, c: Connection)
    requires ValidBinding(made) && c in made
    ensures Rev(c) !in made
  {
    var i :| 0 <= i < |made| && made[i] == c;
    forall j | 0 <= j < |made| ensures made[j] != Rev(c) {
      if i < j {
        PortBoundOnce(made, i, j);
      } else if j < i {
        PortBoundOnce(made, j, i);
      }
    }
  }

  /* ---- the pass ---- */

  ghost predicate Subsequence<T>(s: seq<T>, t: seq<T>) {
    s == [] ||
    (t != [] &&
     (Subsequence(s, t[..|t| - 1]) ||
      (s[|s| - 1] == t[|t| - 1] && Subsequence(s[..|s| - 1], t[..|t| - 1]))))
  }

  lemma {:induction false} SubsequenceMembers<T>(s: seq<T>, t: seq<T>)
    requires Subsequence(s, t)
    ensures forall x :: x in s ==> x in t
  {
    if s == [] {
    } else {
      if Subsequence(s, t[..|t| - 1]) {
        SubsequenceMembers(s, t[..|t| - 1]);
      } else {
        SubsequenceMembers(s[..|s| - 1], t[..|t| - 1]);
        assert s == s[..|s| - 1] + [s[|s| - 1]];
      }
    }
  }

  lemma {:induction false} GreedyValid(order: seq<Connection>)
    requires forall c :: c in order ==> c.from != c.to
    ensures ValidBinding(Greedy(order)) && Subsequence(Greedy(order), order)
  {
    if order == [] {
    } else {
      var a, c := order[..|order| - 1], order[|order| - 1];
      GreedyValid(a);
      if Fits(Greedy(a), c) {
        ValidSnoc(Greedy(a), c);
        assert (Greedy(a) + [c])[..|Greedy(a)|] == Greedy(a);
      }
    }
  }

  /** If the pass does not fail, every connection is bound in exactly one direction, and every
      listed port is bound exactly once, its indices running from 0 without gap. */
  lemma PassIsSound(order: seq<Connection>)
    requires Listed(order) && 2 * |Greedy(order)| == |order|
    ensures ValidBinding(Greedy(order))
    ensures forall c :: c in order ==> (c in Greedy(order) <==> Rev(c) !in Greedy(order))
    ensures forall p :: HasPort(order, p) <==> p.index < Uses(Greedy(order), KeyOf(p))
  {
    var made := Greedy(order);
    GreedyValid(order);
    SubsequenceMembers(made, order);
    HalfIsAll(order, made);
    forall c | c in order ensures c in made <==> Rev(c) !in made {
      assert c in ToSet(Both(made));
      InBoth(made, c);
      if c in made { OneDirection(made, c); }
    }
    forall p ensures HasPort(order, p) <==> p.index < Uses(made, KeyOf(p)) {
      PortsFilled(made, p);
      SamePorts(order, made, p);
    }
  }

  lemma SamePorts(cs: seq<Connection>, made: seq<Connection>, p: Port)
    requires ToSet(Both(made)) == ToSet(cs)
    ensures HasPort(cs, p) <==> HasPort(made, p)
  {
    if HasPort(cs, p) {
      var c :| c in cs && (c.from == p || c.to == p);
      assert c in ToSet(Both(made));
      InBoth(made, c);
    }
    if HasPort(made, p) {
      var c :| c in made && (c.from == p || c.to == p);
      InBoth(made, c);
      assert c in ToSet(Both(made));
    }
  }

  /* ---- exactly when the pass does not fail ---- */

  /** Connections of a fully bound list that share a port are the same, up to direction. */
  lemma SamePeer(cs: seq<Connection>, full: seq<Connection>, c: Connection, e: Connection, p: Port)
    requires ValidBinding(full) && ToSet(Both(full)) == ToSet(cs) && c in cs && e in cs
    requires (c.from == p || c.to == p) && (e.from == p || e.to == p)
    ensures e == c || e == Rev(c)
  {
    var c' := InOneDirection(cs, full, c);
    var e' := InOneDirection(cs, full, e);
    SameBinding(full, c', e');
  }

  lemma InOneDirection(cs: seq<Connection>, full: seq<Connection>, c: Connection) returns (d: Connection)
    requires ToSet(Both(full)) == ToSet(cs) && c in cs
    ensures d in full && (d == c || d == Rev(c))
  {
    assert c in ToSet(Both(full));
    InBoth(full, c);
    d := if c in full then c else Rev(c);
  }

  lemma SameBinding(full: seq<Connection>, c: Connection, e: Connection)
    requires ValidBinding(full) && c in full && e in full
    requires c.from == e.from || c.from == e.to || c.to == e.from || c.to == e.to
    ensures c == e
  {
    var i :| 0 <= i < |full| && full[i] == c;
    var j :| 0 <= j < |full| && full[j] == e;
    if i < j {
      PortBoundOnce(full, i, j);
    } else if j < i {
      PortBoundOnce(full, j, i);
    }
  }

  /** A port that is next in line after some of the bindings of `s` is next in line for the pass,
      once the pass has made those bindings, unless the pass has bound it. */
  lemma NextInLine(g: seq<Connection>, s: seq<Connection>, p: Port)
    requires ValidBinding(g) && ValidBinding(s)
    requires forall c :: c in s ==> c in g || Rev(c) in g
    requires Uses(s, KeyOf(p)) == p.index && !HasPort(g, p)
    ensures Uses(g, KeyOf(p)) == p.index
  {
    PortsFilled(g, p);
    if p.index > 0 {
      var q := p.(index := p.index - 1);
      PortsFilled(s, q);
      var c :| c in s && (c.from == q || c.to == q);
      assert HasPort(g, q) by {
        if c in g {
        } else {
          assert Rev(c) in g && (Rev(c).from == q || Rev(c).to == q);
        }
      }
      PortsFilled(g, q);
    }
  }

  /** Connections that share a port are the same, up to direction. */
  ghost predicate OnePeer(cs: seq<Connection>) {
    forall c, e :: c in cs && e in cs && Meet(c, e) ==> e == c || e == Rev(c)
  }

  ghost predicate Meet(c: Connection, e: Connection) {
    c.from == e.from || c.from == e.to || c.to == e.from || c.to == e.to
  }

  /** A list that can be bound gives every port one peer. */
  lemma BoundOnePeer(cs: seq<Connection>, full: seq<Connection>)
    requires ValidBinding(full) && ToSet(Both(full)) == ToSet(cs)
    ensures OnePeer(cs)
  {
    forall c, e | c in cs && e in cs && Meet(c, e) ensures e == c || e == Rev(c) {
      SamePeer(cs, full, c, e, if c.from == e.from || c.from == e.to then c.from else c.to);
    }
  }

  /** The pass binds whatever any valid binding drawn from the same order binds, no later, if every
      port has one peer. */
  lemma {:induction false} PassKeepsUp(s: seq<Connection>, t: seq<Connection>)
    requires OnePeer(t) && forall c :: c in t ==> c.from != c.to
    requires ValidBinding(s) && Subsequence(s, t)
    ensures forall c :: c in s ==> c in Greedy(t) || Rev(c) in Greedy(t)
    decreases |t|
  {
    if s == [] {
    } else {
      var t', x := t[..|t| - 1], t[|t| - 1];
      assert t == t' + [x];
      assert OnePeer(t') by { assert forall c :: c in t' ==> c in t; }
      var g := Greedy(t');
      if Subsequence(s, t') {
        PassKeepsUp(s, t');
      } else {
        var s' := s[..|s| - 1];
        assert s == s' + [x];
        ValidSnoc(s', x);
        PassKeepsUp(s', t');
        if x !in g && Rev(x) !in g {
          GreedyValid(t');
          SubsequenceMembers(g, t');
          NotYetBound(t, g, x);
          NextInLine(g, s', x.from);
          NextInLine(g, s', x.to);
        }
      }
    }
  }

  lemma NotYetBound(t: seq<Connection>, g: seq<Connection>, x: Connection)
    requires OnePeer(t) && x in t && forall c :: c in g ==> c in t
    requires x !in g && Rev(x) !in g
    ensures !HasPort(g, x.from) && !HasPort(g, x.to)
  {
    forall e | e in g ensures !Meet(x, e) {
    }
  }

  /** Some choice of directions, taken in the order of the list, numbers every port in turn. */
  ghost predicate BindableInOrder(order: seq<Connection>) {
    exists s :: Subsequence(s, order) && ValidBinding(s) && 2 * |s| == |order|
  }

  /** The single pass is as good as any selection from the same processing order: it succeeds if
      and only if some selection of half the connections numbers the ports in turn. */
  lemma {:induction false} PassSucceedsIff(order: seq<Connection>)
    requires Listed(order)
    ensures 2 * |Greedy(order)| == |order| <==> BindableInOrder(order)
  {
    var g := Greedy(order);
    GreedyValid(order);
    SubsequenceMembers(g, order);
    HalfIsAll(order, g);
    if BindableInOrder(order) {
      var s :| Subsequence(s, order) && ValidBinding(s) && 2 * |s| == |order|;
      SubsequenceMembers(s, order);
      HalfIsAll(order, s);
      BoundOnePeer(order, s);
      PassKeepsUp(s, order);
      forall c | c in order ensures c in Both(g) {
        assert c in ToSet(Both(s));
        InBoth(s, c);
        InBoth(g, c);
      }
      BothListed(order, g);
      assert ToSet(Both(g)) == ToSet(order);
    }
  }

  /* ---- the same without the pass: the indices of each port come in turn ---- */

  predicate SamePort(p: Port, q: Port) { p.owner == q.owner && p.name == q.name }

  predicate Ahead(p: Port, q: Port) { SamePort(p, q) ==> p.index < q.index }

  /** Where both connections have ends of one port, those of `c` have the lower indices. */
  predicate Precedes(c: Connection, e: Connection) {
    Ahead(c.from, e.from) && Ahead(c.from, e.to) && Ahead(c.to, e.from) && Ahead(c.to, e.to)
  }

  /** The index before that of `p` is taken. */
  ghost predicate NoGapBefore(s: seq<Connection>, p: Port) {
    p.index > 0 ==> HasPort(s, p.(index := p.index - 1))
  }

  /** No connection joins a port to itself, the indices of every port increase along `s`, and none is
      left out. */
  ghost predicate InTurn(s: seq<Connection>) {
    && (forall i :: 0 <= i < |s| ==> !SamePort(s[i].from, s[i].to))
    && (forall i, j :: 0 <= i < j < |s| ==> Precedes(s[i], s[j]))
    && (forall i :: 0 <= i < |s| ==> NoGapBefore(s, s[i].from) && NoGapBefore(s, s[i].to))
  }

  lemma ValidPrecedes(s: seq<Connection>, i: nat, j: nat)
    requires ValidBinding(s) && i < j < |s|
    ensures Precedes(s[i], s[j])
  {
    ValidPrefix(s, j);
    assert s[..j][i] == s[i] && s[i] in s[..j];
    PortsFilled(s[..j], s[i].from);
    PortsFilled(s[..j], s[i].to);
    assert Fits(s[..j], s[j]);
  }

  lemma ValidNoGap(s: seq<Connection>, p: Port)
    requires ValidBinding(s) && HasPort(s, p)
    ensures NoGapBefore(s, p)
  {
    PortsFilled(s, p);
    if p.index > 0 { PortsFilled(s, p.(index := p.index - 1)); }
  }

  lemma ValidInTurn(s: seq<Connection>)
    requires ValidBinding(s)
    ensures InTurn(s)
  {
    forall i | 0 <= i < |s| ensures !SamePort(s[i].from, s[i].to) {
      assert Fits(s[..i], s[i]);
    }
    forall i, j | 0 <= i < j < |s| ensures Precedes(s[i], s[j]) {
      ValidPrecedes(s, i, j);
    }
    forall i | 0 <= i < |s| ensures NoGapBefore(s, s[i].from) && NoGapBefore(s, s[i].to) {
      assert s[i] in s;
      ValidNoGap(s, s[i].from);
      ValidNoGap(s, s[i].to);
    }
  }

  /** The index before an end of the front is taken in the front. */
  lemma NoGapInFront(a: seq<Connection>, c: Connection, i: nat, p: Port)
    requires i < |a| && (p == a[i].from || p == a[i].to) && Precedes(a[i], c) && NoGapBefore(a + [c], p)
    ensures NoGapBefore(a, p)
  {
    if p.index > 0 {
      var q := p.(index := p.index - 1);
      var e :| e in a + [c] && (e.from == q || e.to == q);
      assert e in a;
    }
  }

  lemma InTurnFront(a: seq<Connection>, c: Connection)
    requires InTurn(a + [c])
    ensures InTurn(a)
  {
    var s := a + [c];
    assert forall i :: 0 <= i < |a| ==> s[i] == a[i];
    forall i | 0 <= i < |a| ensures NoGapBefore(a, a[i].from) && NoGapBefore(a, a[i].to) {
      assert Precedes(s[i], s[|a|]) && NoGapBefore(s, s[i].from) && NoGapBefore(s, s[i].to);
      NoGapInFront(a, c, i, a[i].from);
      NoGapInFront(a, c, i, a[i].to);
    }
  }

  lemma NotInFront(a: seq<Connection>, c: Connection, p: Port)
    requires InTurn(a + [c]) && (p == c.from || p == c.to)
    ensures !HasPort(a, p)
  {
    var s := a + [c];
    forall e | e in a ensures e.from != p && e.to != p {
      var i :| 0 <= i < |a| && a[i] == e;
      assert s[i] == e && s[|a|] == c;
      assert Precedes(s[i], s[|a|]);
    }
  }

  lemma InTurnBefore(a: seq<Connection>, c: Connection, p: Port)
    requires InTurn(a + [c]) && (p == c.from || p == c.to)
    ensures NoGapBefore(a, p)
  {
    var s := a + [c];
    assert s[|a|] == c && !SamePort(s[|a|].from, s[|a|].to) && NoGapBefore(s, p);
    if p.index > 0 {
      var q := p.(index := p.index - 1);
      var e :| e in s && (e.from == q || e.to == q);
      assert e in a;
    }
  }

  /** The last end of a list whose indices come in turn is next in line after the others. */
  lemma InTurnLast(a: seq<Connection>, c: Connection, p: Port)
    requires InTurn(a + [c]) && ValidBinding(a) && (p == c.from || p == c.to)
    ensures Uses(a, KeyOf(p)) == p.index
  {
    NotInFront(a, c, p);
    InTurnBefore(a, c, p);
    PortsFilled(a, p);
    if p.index > 0 { PortsFilled(a, p.(index := p.index - 1)); }
  }

  lemma {:induction false} InTurnValid(s: seq<Connection>)
    requires InTurn(s)
    ensures ValidBinding(s)
  {
    if s == [] {
    } else {
      var a, c := s[..|s| - 1], s[|s| - 1];
      assert s == a + [c];
      InTurnFront(a, c);
      InTurnValid(a);
      InTurnLast(a, c, c.from);
      InTurnLast(a, c, c.to);
      assert !SamePort(s[|a|].from, s[|a|].to);
      ValidSnoc(a, c);
    }
  }

  /** Bindings can be made one after the other exactly when the indices of every port come in turn. */
  lemma ValidIffInTurn(s: seq<Connection>)
    ensures ValidBinding(s) <==> InTurn(s)
  {
    if ValidBinding(s) { ValidInTurn(s); }
    if InTurn(s) { InTurnValid(s); }
  }

  /** The pass succeeds if and only if half of the connections can be picked from the list, in its
      order, so that the indices of every port come in turn. */
  lemma PassSucceedsIffInTurn(order: seq<Connection>)
    requires Listed(order)
    ensures 2 * |Greedy(order)| == |order| <==>
            exists s :: Subsequence(s, order) && 2 * |s| == |order| && InTurn(s)
  {
    PassSucceedsIff(order);
    if BindableInOrder(order) {
      var s :| Subsequence(s, order) && ValidBinding(s) && 2 * |s| == |order|;
      ValidIffInTurn(s);
    }
    if s :| Subsequence(s, order) && 2 * |s| == |order| && InTurn(s) {
      ValidIffInTurn(s);
    }
  }

  /* ---- a list on which the pass succeeds ---- */

  /** The connections whose other direction does not come before them. */
  function Firsts(order: seq<Connection>): (r: seq<Connection>)
  {
    if order == [] then []
    else
      var a, c := order[..|order| - 1], order[|order| - 1];
      if Rev(c) in a then Firsts(a) else Firsts(a) + [c]
  }

  lemma {:induction false} FirstsFacts(order: seq<Connection>)
    ensures Subsequence(Firsts(order), order)
    ensures forall c :: c in order ==> c in Firsts(order) || Rev(c) in Firsts(order)
  {
    if order == [] {
    } else {
      var a, c := order[..|order| - 1], order[|order| - 1];
      assert order == a + [c];
      FirstsFacts(a);
      if Rev(c) in a {
        assert Rev(Rev(c)) == c;
      } else {
        assert (Firsts(a) + [c])[..|Firsts(a)|] == Firsts(a);
        assert c in Firsts(order);
        assert forall e :: e in Firsts(a) ==> e in Firsts(order);
      }
    }
  }

  /** If the indices of every port come in turn when each connection is taken where it is first
      listed, the pass binds every connection. */
  lemma FirstsInTurnSucceed(order: seq<Connection>)
    requires Listed(order) && InTurn(Firsts(order))
    ensures 2 * |Greedy(order)| == |order|
  {
    var s := Firsts(order);
    FirstsFacts(order);
    SubsequenceMembers(s, order);
    ValidIffInTurn(s);
    HalfIsAll(order, s);
    BothListed(order, s);
    forall c | c in order ensures c in Both(s) { InBoth(s, c); }
    assert ToSet(Both(s)) == ToSet(order);
    PassSucceedsIffInTurn(order);
  }

  /* ---- whether any order works ---- */

  /** The connections can be bound one after the other so that each port's indices come in turn. */
  ghost predicate Orderable(cs: seq<Connection>) {
    exists s :: ValidBinding(s) && ToSet(Both(s)) == ToSet(cs)
  }

  lemma {:induction false} SubsequenceOfSelf<T>(s: seq<T>)
    ensures Subsequence(s, s)
  {
    if s == [] {
    } else {
      SubsequenceOfSelf(s[..|s| - 1]);
    }
  }

  lemma {:induction false} SubsequenceOfConcat<T>(s: seq<T>, t: seq<T>)
    ensures Subsequence(s, s + t)
  {
    if t == [] {
      assert s + t == s;
      SubsequenceOfSelf(s);
    } else {
      assert (s + t)[..|s + t| - 1] == s + t[..|t| - 1];
      SubsequenceOfConcat(s, t[..|t| - 1]);
    }
  }

  /** Bindings can be ordered if and only if the pass succeeds on some arrangement of the list. */
  lemma {:induction false} OrderableIffSomeOrder(cs: seq<Connection>)
    requires Listed(cs)
    ensures Orderable(cs) <==>
            exists order :: Listed(order) && ToSet(order) == ToSet(cs) && 2 * |Greedy(order)| == |order|
  {
    if Orderable(cs) {
      var s :| ValidBinding(s) && ToSet(Both(s)) == ToSet(cs);
      var order := Both(s);
      BothDistinct(s);
      assert forall c :: c in order <==> c in ToSet(order);
      assert forall c :: c in cs <==> c in ToSet(cs);
      assert Listed(order);
      SubsequenceOfConcat(s, Reversed(s));
      assert BindableInOrder(order);
      PassSucceedsIff(order);
    }
    if order :| Listed(order) && ToSet(order) == ToSet(cs) && 2 * |Greedy(order)| == |order| {
      GreedyValid(order);
      SubsequenceMembers(Greedy(order), order);
      HalfIsAll(order, Greedy(order));
    }
  }

  /* ---- the sorted order ---- */

  /** The order of the ports by object, port name and index. */
  predicate Before(p: Port, q: Port) {
    || LessString(p.owner, q.owner)
    || (p.owner == q.owner && (LessString(p.name, q.name) || (p.name == q.name && p.index < q.index)))
  }

  lemma PortsOrdered(p: Port, q: Port)
    ensures p == q ==> !Before(p, q)
    ensures p != q ==> (Before(p, q) <==> !Before(q, p))
    ensures Before(p, q) && p.owner == q.owner && p.name == q.name ==> p.index < q.index
  {
    StringsOrdered(p.owner, q.owner);
    StringsOrdered(p.name, q.name);
  }

  const A0 := Port("a", "p", 0)
  const A1 := Port("a", "p", 1)
  const B0 := Port("b", "p", 0)
  const Y0 := Port("y", "p", 0)
  const Z0 := Port("z", "p", 0)
  const Z1 := Port("z", "p", 1)

  /** Three connections, in both directions, sorted. */
  const SORTED: seq<Connection> :=
    [Connection(A0, Z1), Connection(A1, B0), Connection(B0, A1),
     Connection(Y0, Z0), Connection(Z0, Y0), Connection(Z1, A0)]

  /** What the first binding, between `y` and `z`, leaves for the ports. */
  lemma FirstBinding(k: Key)
    ensures Uses([SORTED[3]], k) == if k == KeyOf(Y0) || k == KeyOf(Z0) then 1 else 0
  {
    UsesSnoc([], SORTED[3], k);
    assert [] + [SORTED[3]] == [SORTED[3]];
  }

  lemma SortedPassStart()
    ensures Greedy(SORTED[..4]) == [SORTED[3]]
  {
    var s := SORTED;
    assert s[..1] == [] + [s[0]] && s[..2] == s[..1] + [s[1]];
    assert s[..3] == s[..2] + [s[2]] && s[..4] == s[..3] + [s[3]];
    GreedySnoc([], s[0]);
    GreedySnoc(s[..1], s[1]);
    GreedySnoc(s[..2], s[2]);
    GreedySnoc(s[..3], s[3]);
  }

  lemma SortedPassOutcome()
    ensures |Greedy(SORTED)| == 2
  {
    var s := SORTED;
    SortedPassStart();
    forall k { FirstBinding(k); }
    assert s[..5] == s[..4] + [s[4]] && s == s[..5] + [s[5]];
    GreedySnoc(s[..4], s[4]);
    GreedySnoc(s[..5], s[5]);
  }

  lemma SortedOrderable()
    ensures Orderable(SORTED)
  {
    var s := SORTED;
    var b := [s[3], s[5], s[1]];
    assert ValidBinding(b) by { SortedBindingValid(); }
    assert Both(b) == [s[3], s[5], s[1], s[4], s[0], s[2]];
    assert ToSet(Both(b)) == ToSet(s);
  }

  lemma SortedBindingStart()
    ensures ValidBinding([SORTED[3], SORTED[5]])
  {
    var s := SORTED;
    ValidSnoc([], s[3]);
    assert [] + [s[3]] == [s[3]];
    FirstBinding(KeyOf(Z1));
    FirstBinding(KeyOf(A0));
    ValidSnoc([s[3]], s[5]);
    assert [s[3]] + [s[5]] == [s[3], s[5]];
  }

  lemma SortedBindingValid()
    ensures ValidBinding([SORTED[3], SORTED[5], SORTED[1]])
  {
    var s := SORTED;
    SortedBindingStart();
    FirstBinding(KeyOf(A1));
    FirstBinding(KeyOf(B0));
    assert [s[3]] + [s[5]] == [s[3], s[5]];
    UsesSnoc([s[3]], s[5], KeyOf(A1));
    UsesSnoc([s[3]], s[5], KeyOf(B0));
    ValidSnoc([s[3], s[5]], s[1]);
    assert [s[3], s[5]] + [s[1]] == [s[3], s[5], s[1]];
  }

  /** The source promises that sorting makes one direction of each connection bindable. That does
      not hold: these connections can be ordered, but on the sorted list the pass fails. */
  lemma SortedPassCanFail()
    ensures Listed(SORTED) && Orderable(SORTED)
    ensures forall i, j :: 0 <= i < j < |SORTED| ==> Before(SORTED[i].from, SORTED[j].from)
    ensures 2 * |Greedy(SORTED)| != |SORTED|
  {
    SortedPassOutcome();
    SortedOrderable();
  }

  lemma GreedySnoc(order: seq<Connection>, c: Connection)
    ensures Greedy(order + [c]) == if Fits(Greedy(order), c) then Greedy(order) + [c] else Greedy(order)
  {
    assert (order + [c])[..|order|] == order;
  }

  /* ---- what one step does ---- */

  /** The bindings that start, or end, at the port of `p`. */
  function From(made: seq<Connection>, p: Port): (r: set<nat>)
  {
    set i: nat | i < |made| && made[i].from.owner == p.owner && made[i].from.name == p.name
  }

  function To(made: seq<Connection>, p: Port): (r: set<nat>)
  {
    set i: nat | i < |made| && made[i].to.owner == p.owner && made[i].to.name == p.name
  }

  lemma FromToSnoc(a: seq<Connection>, c: Connection, p: Port)
    ensures From(a + [c], p) == if SamePort(c.from, p) then From(a, p) + {|a|} else From(a, p)
    ensures To(a + [c], p) == if SamePort(c.to, p) then To(a, p) + {|a|} else To(a, p)
  {
  }

  /** The uses of a port are the ends of bindings that belong to it. */
  lemma {:induction false} UsesAreEnds(made: seq<Connection>, p: Port)
    ensures Uses(made, KeyOf(p)) == |From(made, p)| + |To(made, p)|
  {
    if made == [] {
      assert From(made, p) == {} && To(made, p) == {};
    } else {
      var a, c := made[..|made| - 1], made[|made| - 1];
      assert made == a + [c];
      UsesAreEnds(a, p);
      FromToSnoc(a, c, p);
    }
  }

  /** A connection is bound at its turn if and only if the index of each of its ends is the number of
      ends of the bindings made before it that belong to the same port. */
  lemma BoundAtTurnIff(order: seq<Connection>, i: nat)
    requires i < |order|
    ensures var made, c := Greedy(order[..i]), order[i];
            Greedy(order[..i + 1]) ==
            if |From(made, c.from)| + |To(made, c.from)| == c.from.index
               && |From(made, c.to)| + |To(made, c.to)| == c.to.index then made + [c] else made
  {
    var made, c := Greedy(order[..i]), order[i];
    assert order[..i + 1] == order[..i] + [c];
    GreedySnoc(order[..i], c);
    UsesAreEnds(made, c.from);
    UsesAreEnds(made, c.to);
  }

  /* ---- the method of the source ---- */

  /** Every port with a connection gets the index 0. */
  method ZeroIndices(connections: seq<Connection>) returns (r: map<Key, nat>)
    ensures forall c :: c in connections ==> KeyOf(c.from) in r
    ensures forall k :: k in r ==> r[k] == 0
  {
    r := map[];
    for i := 0 to |connections|
      invariant forall j :: 0 <= j < i ==> KeyOf(connections[j].from) in r
      invariant forall k :: k in r ==> r[k] == 0
    {
      r := r[KeyOf(connections[i].from) := 0];
    }
  }

  /** The index of each port is the number of its connections made so far. */
  ghost predicate Counted(indices: map<Key, nat>, made: seq<Connection>) {
    forall k :: k in indices ==> indices[k] == Uses(made, k)
  }

  lemma CountedStep(indices: map<Key, nat>, made: seq<Connection>, c: Connection)
    requires Counted(indices, made) && KeyOf(c.from) in indices && KeyOf(c.to) in indices
    ensures var f, t := KeyOf(c.from), KeyOf(c.to);
            var next := indices[f := indices[f] + 1];
            Counted(next[t := next[t] + 1], made + [c])
  {
    UsesBoth(made, c);
  }

  /** Both ends of every connection have an index. */
  ghost predicate Indexed(indices: map<Key, nat>, order: seq<Connection>) {
    forall c :: c in order ==> KeyOf(c.from) in indices && KeyOf(c.to) in indices
  }

  lemma EndsIndexed(connections: seq<Connection>, order: seq<Connection>, indices: map<Key, nat>)
    requires forall c :: c in connections ==> Rev(c) in connections
    requires multiset(order) == multiset(connections)
    requires forall c :: c in connections ==> KeyOf(c.from) in indices
    ensures Indexed(indices, order)
  {
    forall c | c in order ensures KeyOf(c.from) in indices && KeyOf(c.to) in indices {
      assert c in multiset(order) && c in connections && Rev(c) in connections;
      assert Rev(c).from == c.to;
    }
  }

  /** Binds the ports, taking the connections in the given order; `None` is the exception. */
  method BindPorts(connections: seq<Connection>, order: seq<Connection>) returns (r: Option<seq<Connection>>)
    requires forall c :: c in connections ==> Rev(c) in connections
    requires multiset(order) == multiset(connections)
    ensures r == if 2 * |Greedy(order)| == |connections| then Some(Greedy(order)) else None
  {
    var bindIndices := ZeroIndices(connections);
    EndsIndexed(connections, order, bindIndices);
    var made: seq<Connection> := [];
    for i := 0 to |order|
      invariant Indexed(bindIndices, order)
      invariant Counted(bindIndices, made)
      invariant made == Greedy(order[..i])
    {
      var c := order[i];
      var f, t := KeyOf(c.from), KeyOf(c.to);
      assert order[..i + 1] == order[..i] + [c];
      GreedySnoc(order[..i], c);
      if bindIndices[f] == c.from.index && bindIndices[t] == c.to.index {
        CountedStep(bindIndices, made, c);
        made := made + [c];
        bindIndices := bindIndices[f := bindIndices[f] + 1];
        bindIndices := bindIndices[t := bindIndices[t] + 1];
      }
    }
    assert order[..|order|] == order;
    r := if 2 * |made| != |connections| then None else Some(made);
  }
}
