/** The scheduler of one CPU: tick charging, the switch deferred to trap exit, and manual selection by the monitor. */
module Scheduler {
  import opened Machine
  import opened RoundRobin

  /** The traps of a run that hold a scheduling event. */
  function Marks(traps: seq<bool>): nat {
    if traps == [] then 0 else Marks(traps[..|traps| - 1]) + if traps[|traps| - 1] then 1 else 0
  }

  class Cpu {
    /** tick_reset_val of each guest. */
    const quanta: seq<nat>
    /** The remaining ticks, 32-bit words. */
    var tick: seq<nat>
    var current: nat
    var next: Option<nat>
    var locked: nat
    var manual: bool
    var selected: nat

    /** At every trap exit: no request pending for another guest, no lock, and the running guest within its quantum. */
    ghost predicate Valid()
      reads this
    {
      && Quanta(quanta) && |tick| == |quanta| && current < |quanta| && selected < |quanta|
      && TurnOk(quanta, Running()) && locked == 0 && (next == None || next == Some(current))
    }

    ghost function Running(): Turn
      reads this
      requires current < |tick|
    {
      Turn(current, tick[current])
    }

    /** The first guest launched, with its quantum full. */
    constructor (resets: seq<nat>, first: nat)
      requires Quanta(resets) && first < |resets|
      ensures Valid() && quanta == resets && !manual && Running() == Turn(first, resets[first])
    {
      quanta, tick := resets, resets;
      current, next, locked, manual, selected := first, None, 0, false, 0;
    }

    /** Charges guest `g` one tick, in 32 bits, and names the guest to run next. */
    method NextVmid(g: nat) returns (v: nat)
      requires g < |tick| == |quanta|
      modifies this`tick
      ensures tick == old(tick)[g := (old(tick)[g] - 1) % WORD_RANGE]
      ensures v == if tick[g] != 0 then g else if g < |quanta| - 1 then g + 1 else 0
    {
      tick := tick[g := (tick[g] - 1) % WORD_RANGE];
      v := g;
      if tick[g] == 0 {
        v := if g < |quanta| - 1 then g + 1 else 0;
      }
    }

    method DetermNext() returns (v: nat)
      requires current < |tick| == |quanta|
      modifies this`tick
      ensures manual ==> v == selected && tick == old(tick)
      ensures !manual ==> tick == old(tick)[current := (old(tick)[current] - 1) % WORD_RANGE]
      ensures !manual ==> v == if tick[current] != 0 then current else if current < |quanta| - 1 then current + 1 else 0
    {
      if manual {
        return selected;
      }
      v := NextVmid(current);
    }

    /** Records a request, unless an earlier one of the same trap was locked. */
    method SwitchTo(v: nat, lock: nat) returns (accepted: bool)
      modifies this`next, this`locked
      ensures accepted == (old(locked) == 0)
      ensures next == (if accepted then Some(v) else old(next)) && locked == (if lock != 0 then lock else old(locked))
    {
      accepted := locked == 0;
      if accepted {
        next := Some(v);
      }
      if lock != 0 {
        locked := lock;
      }
    }

    /** Trap exit: a guest that is switched to starts with a full quantum. `switched` asks for save and restore. */
    method PerformSwitch() returns (switched: bool)
      requires current < |tick| == |quanta| && (next.Some? ==> next.value < |quanta|)
      modifies this`tick, this`current, this`next, this`locked
      ensures locked == 0 && switched == (old(next).Some? && old(next).value != old(current))
      ensures switched ==> current == old(next).value && next == None && tick == old(tick)[current := quanta[current]]
      ensures !switched ==> current == old(current) && next == old(next) && tick == old(tick)
    {
      switched := false;
      if next.Some? && next.value != current {
        tick := tick[next.value := quanta[next.value]];
        current := next.value;
        next := None;
        switched := true;
      }
      locked := 0;
    }

    /** A trap with a scheduling event in it, a timer tick or a yield, up to its exit. */
    method Schedule()
      requires Valid()
      modifies this`tick, this`current, this`next, this`locked
      ensures Valid()
      ensures !manual ==> Running() == Charge(quanta, old(Running()))
      ensures manual ==> current == selected
      ensures manual ==>
        Running() == if selected == old(current) then old(Running()) else Turn(selected, quanta[selected])
    {
      var v := DetermNext();
      var accepted := SwitchTo(v, 0);
      var switched := PerformSwitch();
    }

    /** A trap without a scheduling event: nothing asks for a switch, and the running guest keeps its ticks. */
    method OtherTrap()
      requires Valid()
      modifies this`tick, this`current, this`next, this`locked
      ensures Valid() && Running() == old(Running())
    {
      var switched := PerformSwitch();
    }

    /** A breakpoint: the monitor's guest runs, and stays selected until the target is run again. */
    method BreakGuest(monitor: nat)
      requires Valid() && monitor < |quanta|
      modifies this`tick, this`current, this`next, this`locked, this`manual, this`selected
      ensures Valid() && manual && selected == monitor && current == monitor
      ensures Running() == if monitor == old(current) then old(Running()) else Turn(monitor, quanta[monitor])
    {
      manual := true;
      selected := monitor;
      var accepted := SwitchTo(monitor, 0);
      var switched := PerformSwitch();
    }

    /** The target runs again, and scheduling is automatic again. */
    method RunGuest(target: nat)
      requires Valid() && target < |quanta|
      modifies this`tick, this`current, this`next, this`locked, this`manual
      ensures Valid() && !manual && current == target
      ensures Running() == if target == old(current) then old(Running()) else Turn(target, quanta[target])
    {
      manual := false;
      var accepted := SwitchTo(target, 0);
      var switched := PerformSwitch();
    }

    /** A run of traps without manual selection, those marked holding a scheduling event. */
    method TrapMany(traps: seq<bool>)
      requires Valid() && !manual
      modifies this`tick, this`current, this`next, this`locked
      ensures Valid() && Running() == Charged(quanta, old(Running()), Marks(traps))
      ensures Marks(traps) == Round(quanta) ==> Running() == old(Running())
    {
      ghost var t := Running();
      if Marks(traps) == Round(quanta) {
        WindowIsFair(quanta, t, 0);
      }
      for i := 0 to |traps|
        invariant Valid() && Running() == Charged(quanta, t, Marks(traps[..i]))
      {
        assert traps[..i + 1][..i] == traps[..i];
        if traps[i] {
          ServedSplit(quanta, t, Marks(traps[..i]), 1, 0);
          assert Charged(quanta, Running(), 1) == Charge(quanta, Running());
          Schedule();
        } else {
          OtherTrap();
        }
      }
      assert traps[..|traps|] == traps;
    }
  }
}
