/**
 Scripted checkpoints at regular ticks. How the simulator exits is left open: every call advances
 by at most the ticks it is given, and by exactly that many when its limit is the cause.
 */
module CheckpointSchedule {
  import opened Arith

  datatype Cause = Checkpoint | Limit | Other

  /** How a call of the simulator ends: its cause, and how far it got if that is not the limit. */
  datatype Exit = Exit(cause: Cause, ticks: nat)

  /* ---- the causes alone decide how many checkpoints are written ---- */

  /** The next exit; after the last given one every call reaches its limit. */
  function NextCause(es: seq<Exit>): (c: Cause) { if es == [] then Limit else es[0].cause }

  function Rest(es: seq<Exit>): (r: seq<Exit>) { if es == [] then [] else es[1..] }

  /** The exits after any number of "checkpoint" exits. */
  function Settled(es: seq<Exit>): (r: seq<Exit>)
  {
    if NextCause(es) == Checkpoint then Settled(Rest(es)) else es
  }

  /** How many periods fit into `d` ticks. */
  function Fits(d: int, period: nat): (n: nat)
    requires period > 0
    decreases d
  {
    if d < period then 0 else 1 + Fits(d - period, period)
  }

  lemma {:induction false} FitsIsQuotient(d: int, period: nat)
    requires period > 0 && d >= 0
    ensures Fits(d, period) == d / period
    decreases d
  {
    if d < period {
      Quotient(d, period, 0);
    } else {
      FitsIsQuotient(d - period, period);
      assert 1 * period == period;
      QuotientShift(d, period, 1);
    }
  }

  /** How many checkpoints fit before both the maximum and the last tick. */
  function Room(simTicks: int, written: nat, period: nat, maxCheckpoints: int, maxtick: int): (r: nat)
  {
    if written >= maxCheckpoints then 0
    else if period == 0 then maxCheckpoints - written
    else
      var fits := Fits(maxtick - simTicks, period);
      if fits < maxCheckpoints - written then fits else maxCheckpoints - written
  }

  /** After the checkpoint at tick `when` there is room for the periods up to the last tick, and for no
      more checkpoints than the maximum. */
  lemma RoomIsQuotient(when: int, period: nat, maxCheckpoints: nat, maxtick: int)
    requires when <= maxtick && period > 0 && maxCheckpoints > 0
    ensures var fits := (maxtick - when) / period;
            Room(when, 1, period, maxCheckpoints, maxtick) ==
            if fits < maxCheckpoints - 1 then fits else maxCheckpoints - 1
  {
    FitsIsQuotient(maxtick - when, period);
  }

  /** How many of `room` further checkpoints are written. */
  function Taken(es: seq<Exit>, room: nat): (n: nat)
    ensures n <= room
  {
    if room == 0 then 0
    else
      match NextCause(es)
      case Limit => 1 + Taken(Rest(es), room - 1)
      case Checkpoint => if NextCause(Settled(Rest(es))) == Limit then 1 else 0
      case Other => 0
  }

  function Total(es: seq<Exit>, room: nat): (n: nat)
  {
    var s := Settled(es);
    if NextCause(s) == Limit then 1 + Taken(Rest(s), room) else 0
  }

  function Drop(es: seq<Exit>, n: nat): (r: seq<Exit>) { if n <= |es| then es[n..] else [] }

  /** Nothing disturbs the intervals before the last, and the last ends at its limit. */
  ghost predicate Undisturbed(es: seq<Exit>, room: nat) {
    room > 0 ==>
      && (forall i :: 0 <= i < room - 1 && i < |es| ==> es[i].cause == Limit)
      && NextCause(Settled(Drop(es, room - 1))) == Limit
  }

  /** All checkpoints there is room for are written exactly when no interval but the last one is
      disturbed: a "checkpoint" exit inside an interval ends the schedule with that interval. */
  lemma {:induction false} AllTakenIff(es: seq<Exit>, room: nat)
    ensures Taken(es, room) == room <==> Undisturbed(es, room)
  {
    if room == 0 {
    } else if room == 1 {
      assert Drop(es, 0) == es;
      if NextCause(es) == Limit { assert Settled(es) == es; }
    } else {
      AllTakenIff(Rest(es), room - 1);
      assert Drop(es, room - 1) == Drop(Rest(es), room - 2);
      if es != [] {
        assert forall i :: 0 <= i < |es| - 1 ==> Rest(es)[i] == es[i + 1];
        assert forall i :: 1 <= i < |es| ==> es[i] == Rest(es)[i - 1];
      }
    }
  }

  /** The first interval and all that there is room for are written exactly when the exits before
      the first limit are "checkpoint" exits and nothing disturbs the intervals after it. */
  lemma AllWrittenIff(es: seq<Exit>, room: nat)
    ensures Total(es, room) <= 1 + room
    ensures Total(es, room) == 1 + room <==>
            NextCause(Settled(es)) == Limit && Undisturbed(Rest(Settled(es)), room)
  {
    AllTakenIff(Rest(Settled(es)), room);
  }

  /** A single "checkpoint" exit can cost the rest of the schedule. */
  lemma CheckpointExitEndsSchedule(ticks: nat, room: nat)
    requires room >= 2
    ensures Total([Exit(Limit, 0), Exit(Checkpoint, ticks)], room) == 2 < 1 + room
  {
    var es := [Exit(Limit, 0), Exit(Checkpoint, ticks)];
    assert Settled(es) == es && Rest(es) == [Exit(Checkpoint, ticks)];
    assert Rest(Rest(es)) == [] && Settled([]) == [];
  }

  lemma RoomStep(simTicks: int, written: nat, period: nat, maxCheckpoints: int, maxtick: int)
    requires simTicks <= maxtick && written < maxCheckpoints
    ensures simTicks + period > maxtick ==> Room(simTicks, written, period, maxCheckpoints, maxtick) == 0
    ensures simTicks + period <= maxtick ==>
              Room(simTicks, written, period, maxCheckpoints, maxtick)
              == 1 + Room(simTicks + period, written + 1, period, maxCheckpoints, maxtick)
  {
  }

  /* ---- how the run ends ---- */

  /** The cause of the last call, when there is room for `room` further checkpoints and, unless the
      maximum was reached with them, one more call goes on to the last tick. */
  function Ending(es: seq<Exit>, room: nat, more: bool): (c: Cause)
  {
    if room == 0 then if more then NextCause(es) else Limit
    else
      match NextCause(es)
      case Limit => Ending(Rest(es), room - 1, more)
      case Checkpoint => NextCause(Settled(Rest(es)))
      case Other => Other
  }

  /** None of the first `room` calls ends before its limit. */
  predicate AllLimits(es: seq<Exit>, room: nat) {
    room == 0 || (NextCause(es) == Limit && AllLimits(Rest(es), room - 1))
  }

  lemma {:induction false} AllLimitsIff(es: seq<Exit>, room: nat)
    ensures AllLimits(es, room) <==> forall i :: 0 <= i < room && i < |es| ==> es[i].cause == Limit
  {
    if room == 0 {
    } else {
      AllLimitsIff(Rest(es), room - 1);
      if es != [] {
        assert forall i :: 0 <= i < |es| - 1 ==> Rest(es)[i] == es[i + 1];
        assert forall i :: 1 <= i < |es| ==> es[i] == Rest(es)[i - 1];
      }
    }
  }

  /** If no interval is disturbed, the last call is the one to the last tick, if there is one. */
  lemma {:induction false} EndingUndisturbed(es: seq<Exit>, room: nat, more: bool)
    requires AllLimits(es, room)
    ensures Ending(es, room, more) == if more then NextCause(Drop(es, room)) else Limit
  {
    if room == 0 {
      assert Drop(es, 0) == es;
    } else {
      EndingUndisturbed(Rest(es), room - 1, more);
      assert Drop(es, room) == Drop(Rest(es), room - 1);
    }
  }

  lemma TakenStep(es: seq<Exit>, room: nat)
    ensures Taken(es, 1 + room) == Taken(es, 1) + if NextCause(es) == Limit then Taken(Rest(es), room) else 0
  {
    assert Taken(Rest(es), 0) == 0;
  }

  /** After `n` checkpoints, with room for `left` more, the run goes on as it would have from the
      first of the exits `es`, or it has ended as it would have. */
  ghost predicate OnPlan(
    es: seq<Exit>, room: nat, more: bool, exits: seq<Exit>, n: nat, left: nat, cause: Cause, last: Cause)
  {
    if cause == Limit then
      && last == Limit && n + left == 1 + room
      && Taken(es, room) == n - 1 + Taken(exits, left)
      && Ending(es, room, more) == Ending(exits, left, more)
      && (AllLimits(es, room) <==> AllLimits(exits, left))
    else
      n == 1 + Taken(es, room) && last == Ending(es, room, more) && !AllLimits(es, room)
  }

  lemma PlanStep(es: seq<Exit>, room: nat, more: bool, exits: seq<Exit>, n: nat, left: nat)
    requires OnPlan(es, room, more, exits, n, left + 1, Limit, Limit)
    ensures var cause := NextCause(exits);
            var last := if cause == Checkpoint then NextCause(Settled(Rest(exits))) else cause;
            OnPlan(es, room, more, Rest(exits), n + Taken(exits, 1), left, cause, last)
  {
    TakenStep(exits, left);
  }

  /** The run has written `n` checkpoints, the last of them at `latest`, and is at `tick` after the exit
      for `last`. */
  ghost predicate Ended(
    es: seq<Exit>, room: nat, more: bool, maxtick: int, n: nat, last: Cause, latest: int, tick: int)
  {
    && n == 1 + Taken(es, room) && last == Ending(es, room, more)
    && (last == Limit ==> tick == if more && AllLimits(es, room) then maxtick else latest)
  }

  /** The loop ends for want of anything left to do, or for another cause than the limit. */
  lemma PlanEnds(
    es: seq<Exit>, room: nat, more: bool, maxtick: int, exits: seq<Exit>, n: nat, left: nat, cause: Cause, last: Cause,
    latest: int)
    requires OnPlan(es, room, more, exits, n, left, cause, last)
    requires cause == Limit ==> left == 0 && !more
    ensures Ended(es, room, more, maxtick, n, last, latest, latest)
  {
  }

  /** The loop ends with the call to the last tick. */
  lemma PlanStops(
    es: seq<Exit>, room: nat, more: bool, maxtick: int, exits: seq<Exit>, n: nat, latest: int, tick: int)
    requires OnPlan(es, room, more, exits, n, 0, Limit, Limit) && more
    requires NextCause(exits) == Limit ==> tick == maxtick
    ensures Ended(es, room, more, maxtick, n, NextCause(exits), latest, tick)
  {
  }

  /** Checkpoint number `k`, from 0, was written at tick `when + k * period`. */
  ghost predicate OnSchedule(written: seq<int>, when: int, period: nat) {
    forall k :: 0 <= k < |written| ==> written[k] == when + k * period
  }

  /** The checkpoints were written from tick `when` on, one period after the other. */
  ghost predicate Spaced(written: seq<int>, when: int, period: nat) {
    && (written != [] ==> written[0] == when)
    && forall j, k :: 0 <= j < |written| && 0 <= k < |written| && k == j + 1 ==> written[k] == written[j] + period
  }

  lemma {:induction false} SpacedOnSchedule(written: seq<int>, when: int, period: nat)
    requires Spaced(written, when, period)
    ensures OnSchedule(written, when, period)
  {
    if |written| <= 1 {
    } else {
      var n := |written| - 1;
      SpacedOnSchedule(written[..n], when, period);
      assert written[..n][n - 1] == written[n - 1];
      assert (n - 1) * period + period == n * period;
      assert forall k :: 0 <= k < n ==> written[k] == written[..n][k];
    }
  }

  /* ---- the script ---- */

  class Simulator {
    var curTick: int
    var exits: seq<Exit>
    var written: seq<int>

    constructor (tick: int, es: seq<Exit>)
      ensures curTick == tick && exits == es && written == []
    {
      curTick, exits, written := tick, es, [];
    }

    method Simulate(n: nat) returns (cause: Cause)
      modifies this`curTick, this`exits
      ensures cause == NextCause(old(exits)) && exits == Rest(old(exits))
      ensures old(curTick) <= curTick <= old(curTick) + n
      ensures cause == Limit ==> curTick == old(curTick) + n
    {
      if exits == [] || exits[0].cause == Limit {
        curTick := curTick + n;
        cause := Limit;
      } else {
        cause := exits[0].cause;
        curTick := curTick + if exits[0].ticks <= n then exits[0].ticks else n;
      }
      exits := if exits == [] then [] else exits[1..];
    }

    /** Goes on to tick `until` past any "checkpoint" exits, after an exit for `first`. */
    method PassCheckpoints(first: Cause, until: int) returns (cause: Cause)
      requires curTick <= until && (first == Limit ==> curTick == until)
      modifies this`curTick, this`exits
      ensures cause == if first == Checkpoint then NextCause(Settled(old(exits))) else first
      ensures exits == if first == Checkpoint then Rest(Settled(old(exits))) else old(exits)
      ensures old(curTick) <= curTick <= until && (cause == Limit ==> curTick == until)
    {
      cause := first;
      while cause == Checkpoint
        invariant old(curTick) <= curTick <= until && (cause == Limit ==> curTick == until)
        invariant cause != first ==> first == Checkpoint
        invariant if cause == Checkpoint then Settled(exits) == Settled(old(exits)) && first == Checkpoint
                  else if first == Checkpoint
                  then cause == NextCause(Settled(old(exits))) && exits == Rest(Settled(old(exits)))
                  else cause == first && exits == old(exits)
        decreases |exits|, cause == Checkpoint
      {
        cause := Simulate(until - curTick);
      }
    }

    method WriteCheckpoint()
      modifies this`written
      ensures written == old(written) + [curTick]
    {
      written := written + [curTick];
    }

    /** One interval: simulates up to `until` and writes a checkpoint if it gets there. The causes
        that are returned are those of the first and of the last exit. */
    method RunInterval(until: int) returns (cause: Cause, last: Cause)
      requires curTick <= until
      modifies this
      ensures cause == NextCause(old(exits)) && curTick <= until
      ensures last == if cause == Checkpoint then NextCause(Settled(Rest(old(exits)))) else cause
      ensures last == Limit ==> curTick == until && |written| == |old(written)| + 1
      ensures cause == Limit ==> exits == Rest(old(exits)) && curTick == until
      ensures written == if Taken(old(exits), 1) == 1 then old(written) + [until] else old(written)
    {
      cause := Simulate(until - curTick);
      last := PassCheckpoints(cause, until);
      if last == Limit { WriteCheckpoint(); }
    }

    /** Simulates up to `when`, past "checkpoint" exits, and writes a checkpoint if it gets there. */
    method FirstCheckpoint(when: int) returns (cause: Cause)
      requires curTick <= when && written == []
      modifies this
      ensures cause == NextCause(Settled(old(exits))) && exits == Rest(Settled(old(exits)))
      ensures curTick <= when && (cause == Limit ==> curTick == when)
      ensures written == if cause == Limit then [when] else []
    {
      cause := Simulate(when - curTick);
      cause := PassCheckpoints(cause, when);
      if cause == Limit { WriteCheckpoint(); }
    }

    /** The interval up to `until`, as part of a run from the exits `es` on. */
    method NextInterval(
        until: int, period: nat,
        ghost when: int, ghost es: seq<Exit>, ghost room: nat, ghost more: bool, ghost left: nat)
        returns (cause: Cause, last: Cause)
      requires curTick + period == until && written != [] && written[|written| - 1] == curTick
      requires Spaced(written, when, period) && OnPlan(es, room, more, exits, |written|, left + 1, Limit, Limit)
      modifies this
      ensures curTick <= until && Spaced(written, when, period) && written != []
      ensures |old(written)| <= |written| <= |old(written)| + 1
      ensures last == Limit ==> curTick == until == written[|written| - 1]
      ensures cause == Limit ==> last == Limit && |written| == |old(written)| + 1
      ensures OnPlan(es, room, more, exits, |written|, left, cause, last)
    {
      PlanStep(es, room, more, exits, |written|, left);
      cause, last := RunInterval(until);
    }

    /** The intervals after the first checkpoint. */
    method RunIntervals(when: int, period: nat, maxCheckpoints: int, maxtick: int) returns (last: Cause)
      requires curTick == when <= maxtick && written == [when]
      modifies this
      ensures Spaced(written, when, period) && written != [] && curTick <= maxtick
      ensures |written| <= if maxCheckpoints > 1 then maxCheckpoints else 1
      ensures var room := Room(when, 1, period, maxCheckpoints, maxtick);
              Ended(old(exits), room, 1 + room < maxCheckpoints, maxtick, |written|, last,
                    written[|written| - 1], curTick)
    {
      var cause, simTicks := Limit, when;
      last := cause;
      ghost var es, room := exits, Room(when, 1, period, maxCheckpoints, maxtick);
      ghost var left: nat, more := room, 1 + room < maxCheckpoints;
      while |written| < maxCheckpoints && cause == Limit
        invariant curTick <= maxtick && simTicks <= maxtick
        invariant Spaced(written, when, period) && written != []
        invariant last == Limit ==> curTick == simTicks == written[|written| - 1]
        invariant |written| <= if maxCheckpoints > 1 then maxCheckpoints else 1
        invariant cause == Limit ==> left == Room(simTicks, |written|, period, maxCheckpoints, maxtick)
        invariant cause == Limit ==> last == Limit
        invariant OnPlan(es, room, more, exits, |written|, left, cause, last)
        decreases maxCheckpoints - |written|, cause == Limit
      {
        RoomStep(simTicks, |written|, period, maxCheckpoints, maxtick);
        if simTicks + period > maxtick {
          ghost var es' := exits;
          last := Simulate(maxtick - simTicks);
          PlanStops(es, room, more, maxtick, es', |written|, simTicks, curTick);
          return;
        }
        simTicks, left := simTicks + period, left - 1;
        cause, last := NextInterval(simTicks, period, when, es, room, more, left);
      }
      PlanEnds(es, room, more, maxtick, exits, |written|, left, cause, last, written[|written| - 1]);
    }

    /** The simulation does not pass `maxtick`, the checkpoints are on schedule, and the exits and
        the room there is decide how many are written and what the last exit is. A run that ends at
        a limit ends at `maxtick` if no interval was disturbed and the maximum was not reached, and
        otherwise at its last checkpoint. */
    method ScriptCheckpoints(when: int, period: nat, maxCheckpoints: int, maxtick: int) returns (last: Cause)
      requires curTick <= when <= maxtick && written == []
      modifies this
      ensures OnSchedule(written, when, period)
      ensures curTick <= maxtick
      ensures |written| == Total(old(exits), Room(when, 1, period, maxCheckpoints, maxtick))
      ensures |written| <= if maxCheckpoints > 1 then maxCheckpoints else 1
      ensures var room, s := Room(when, 1, period, maxCheckpoints, maxtick), Settled(old(exits));
              && last == (if NextCause(s) == Limit then Ending(Rest(s), room, 1 + room < maxCheckpoints)
                          else NextCause(s))
              && (last == Limit ==>
                  && written != []
                  && curTick == if && 1 + room < maxCheckpoints
                                   && forall i :: 0 <= i < room && i < |Rest(s)| ==> Rest(s)[i].cause == Limit
                                then maxtick
                                else written[|written| - 1])
    {
      last := FirstCheckpoint(when);
      if last == Limit {
        last := RunIntervals(when, period, maxCheckpoints, maxtick);
      }
      SpacedOnSchedule(written, when, period);
      AllLimitsIff(Rest(Settled(old(exits))), Room(when, 1, period, maxCheckpoints, maxtick));
    }
  }
}
