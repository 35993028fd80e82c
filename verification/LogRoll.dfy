/** The rolling log: a circular buffer of lines that can be dumped between any two lines. */
module LogRoll {

  /** The last `n` of the lines, or all if there are fewer. */
  function LastLines(lines: seq<string>, n: int): (r: seq<string>)
    ensures |r| == if 0 <= n < |lines| then n else |lines|
    ensures forall k :: 0 <= k < |r| ==> r[k] == lines[|lines| - |r| + k]
  {
    if 0 <= n <= |lines| then lines[|lines| - n..] else lines
  }

  class Roller {
    const target: int
    var lines: seq<string>
    var idx: nat
    ghost var seen: seq<string>

    /** The buffer has been filled once and lines are now overwritten. */
    ghost predicate Full()
      reads this
    {
      target >= 1 && |seen| >= target
    }

    /** Until it is full the buffer holds the lines seen so far; afterwards it holds the last ones,
        the oldest at `idx`. */
    ghost predicate Valid()
      reads this
    {
      if Full() then
        |lines| == target && idx < target && lines[idx..] + lines[..idx] == seen[|seen| - target..]
      else lines == seen && idx == |seen|
    }

    constructor (n: int)
      ensures Valid() && target == n && seen == []
    {
      target, lines, idx, seen := n, [], 0, [];
    }

    /** Between any two lines a dump shows the last `target` lines in order of arrival; without a
        positive target it shows all of them. */
    method DumpLines() returns (printed: seq<string>)
      requires Valid()
      ensures printed == if target >= 1 then LastLines(seen, target) else seen
    {
      printed := lines[idx..] + lines[..idx];
    }

    method Append(line: string) returns (full: bool)
      requires Valid() && !Full()
      modifies this
      ensures Valid() && seen == old(seen) + [line] && full == Full()
    {
      lines := lines + [line];
      seen := seen + [line];
      full := idx == target - 1;
      idx := if full then 0 else idx + 1;
    }

    method Overwrite(line: string)
      requires Valid() && Full()
      modifies this
      ensures Valid() && Full() && seen == old(seen) + [line]
    {
      ghost var window := lines[idx..] + lines[..idx];
      lines := lines[idx := line];
      seen := seen + [line];
      idx := if idx == target - 1 then 0 else idx + 1;
      assert lines[idx..] + lines[..idx] == window[1..] + [line];
    }
  }

  lemma NextLine(incoming: seq<string>, i: nat)
    requires i < |incoming|
    ensures incoming[..i + 1] == incoming[..i] + [incoming[i]]
  {
  }

  /** Reads all lines: the first loop fills the buffer, the second one overwrites it. */
  method Roll(target: int, incoming: seq<string>) returns (printed: seq<string>)
    ensures printed == if target >= 1 then LastLines(incoming, target) else incoming
  {
    var roller := new Roller(target);
    var i, full := 0, false;
    while i < |incoming| && !full
      invariant 0 <= i <= |incoming| && fresh(roller) && roller.target == target
      invariant roller.Valid() && roller.seen == incoming[..i] && full == roller.Full()
      decreases |incoming| - i
    {
      NextLine(incoming, i);
      full := roller.Append(incoming[i]);
      i := i + 1;
    }
    while i < |incoming|
      invariant 0 <= i <= |incoming| && fresh(roller) && roller.target == target
      invariant roller.Valid() && roller.seen == incoming[..i]
      invariant i < |incoming| ==> roller.Full()
    {
      NextLine(incoming, i);
      roller.Overwrite(incoming[i]);
      i := i + 1;
    }
    assert incoming[..|incoming|] == incoming;
    printed := roller.DumpLines();
  }
}
