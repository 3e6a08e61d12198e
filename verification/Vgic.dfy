/** The virtual interrupt interface of one CPU: list registers, slot tables, pending queues, save and restore. */
module Vgic {
  import opened Word
  import opened ListRegister
  import opened VirqQueue
  import opened GuestRows

  const NOT_FOUND: nat := 0xffff_ffff

  datatype Outcome = Success | Busy | BadAccess

  /** Reads ELSR and isolates its lowest bit. */
  method FindFreeSlot(lr: seq<word>) returns (slot: nat)
    requires |lr| <= 32
    ensures slot == if FreeSlot(lr) < |lr| then FreeSlot(lr) else NOT_FOUND
  {
    var elsr := ReadStatus(seq(|lr|, i requires 0 <= i < |lr| => Empty(lr[i])));
    ZeroIsEmpty(elsr);
    assert FreeSlot(lr) < |lr| ==> FreeSlot(lr) in BitsOf(elsr);
    if elsr != 0 {
      slot := FirstBit(elsr);
      assert FreeSlot(lr) <= slot < |lr|;
    } else {
      slot := NOT_FOUND;
    }
  }

  method IsFreeSlot(lr: seq<word>, slot: nat) returns (free: nat)
    requires slot < |lr| <= 32
    ensures free == if Empty(lr[slot]) then slot else if FreeSlot(lr) < |lr| then FreeSlot(lr) else NOT_FOUND
  {
    if Empty(lr[slot]) {
      free := slot;
    } else {
      free := FindFreeSlot(lr);
    }
  }

  /** The first slot that remembers `virq`. */
  method SlotOfVirq(slots: seq<word>, virq: word) returns (slot: nat)
    requires |slots| == SLOTS
    ensures slot == NOT_FOUND <==> virq !in slots
    ensures slot != NOT_FOUND ==> slot < SLOTS && slots[slot] == virq && virq !in slots[..slot]
  {
    for i := 0 to SLOTS
      invariant virq !in slots[..i]
    {
      if slots[i] == virq {
        return i;
      }
    }
    assert slots[..SLOTS] == slots;
    return NOT_FOUND;
  }

  /** The first row that holds no valid interrupt. */
  method FirstFreeRow(q: seq<Entry>) returns (i: nat)
    ensures i == FreeRow(q)
  {
    i := 0;
    while i < |q| && q[i].valid
      invariant i <= FreeRow(q)
    {
      i := i + 1;
    }
  }

  /** Reads EISR. */
  method ReadEisr(lr: seq<word>) returns (w: word)
    requires |lr| <= 32
    ensures forall i: nat :: i in BitsOf(w) <==> i < |lr| && EoiPending(lr[i])
  {
    w := ReadStatus(seq(|lr|, i requires 0 <= i < |lr| => EoiPending(lr[i])));
  }

  class Interface {
    const cpu: word
    /** The guest numbers as written into the source field of a register. */
    const names: seq<word>
    var lr: seq<word>
    var control: Control
    var current: nat
    var rows: seq<Guest>
    /** Every physical interrupt accepted for injection, and every one deactivated since. */
    ghost var accepted: multiset<word>
    ghost var deactivated: multiset<word>

    /** Comparing with `true` keeps the invariant in one piece for the verifier. */
    ghost predicate Valid()
      reads this`lr, this`current, this`rows, this`accepted, this`deactivated
    {
      |names| == |rows| && Consistent(lr, current, rows, accepted, deactivated) == true
    }

    /** The interface with no interrupt anywhere and guest 0 running. */
    constructor (guestNames: seq<word>, registers: nat, processor: word)
      requires |guestNames| > 0 && registers <= 32
      ensures Valid() && cpu == processor && names == guestNames && |lr| == registers && current == 0
      ensures accepted == multiset{} && deactivated == multiset{}
      ensures |rows| == |guestNames| && forall g :: 0 <= g < |rows| ==>
        |rows[g].queue| == 128 && |rows[g].pirq| == |rows[g].virq| == 64 && |rows[g].saved.lr| == registers
    {
      cpu, names, current := processor, guestNames, 0;
      var none := seq(registers, s => 0 as word);
      var off := Control(0, 0, 0);
      lr, control := none, off;
      rows := seq(|guestNames|, g => Fresh(registers));
      accepted, deactivated := multiset{}, multiset{};
      FreshConsistent(|guestNames|, registers);
    }

    /** Writes a list register if `slot`, or else some register, is empty. */
    method InjectVirq(virq: word, slot: nat, state: word, priority: word, hw: word, physrc: word, maintenance: word)
      returns (used: nat)
      requires slot < |lr| <= 32
      modifies this`lr
      ensures used == if Empty(old(lr)[slot]) then slot
                      else if FreeSlot(old(lr)) < |old(lr)| then FreeSlot(old(lr)) else NOT_FOUND
      ensures lr == if used == NOT_FOUND then old(lr)
                    else old(lr)[used := Compose(virq, state, priority, hw, physrc, maintenance)]
    {
      var desc := Compose(virq, state, priority, hw, physrc, maintenance);
      used := IsFreeSlot(lr, slot);
      if used != NOT_FOUND {
        lr := lr[used := desc];
      }
    }

    /** A software interrupt with maintenance asked for; hardware interrupts are simulated by one from this CPU. */
    method InjectVirqSw(virq: word, state: word, priority: word, source: word) returns (slot: nat)
      requires |lr| <= 32
      modifies this`lr
      ensures slot == if FreeSlot(old(lr)) < |old(lr)| then FreeSlot(old(lr)) else NOT_FOUND
      ensures lr == if slot == NOT_FOUND then old(lr) else old(lr)[slot := Compose(virq, state, priority, 0, source, 1)]
    {
      slot := FindFreeSlot(lr);
      if slot != NOT_FOUND {
        slot := InjectVirq(virq, slot, state, priority, 0, source, 1);
      }
    }

    /** Puts an interrupt into the lowest empty register and remembers it in the running guest's tables. */
    method Present(vmid: nat, e: Entry, priority: word, source: word) returns (slot: nat)
      requires Layout(lr, current, rows) && vmid == current
      modifies this`lr, this`rows
      ensures Layout(lr, current, rows)
      ensures slot == if FreeSlot(old(lr)) < |old(lr)| then FreeSlot(old(lr)) else NOT_FOUND
      ensures var u := Injected(old(ViewOf(lr, current, rows, vmid)), e, priority, source);
        lr == u.lr && rows == old(rows)[vmid := Retabled(old(rows)[vmid], u)]
    {
      assert Fits(rows[vmid], |lr|);
      slot := InjectVirqSw(e.virq, STATE_PENDING, priority, source);
      if slot != NOT_FOUND {
        var row := rows[vmid];
        if e.hw {
          row := row.(pirq := row.pirq[slot := e.pirq]);
        }
        rows := rows[vmid := row.(virq := row.virq[slot := e.virq])];
      }
    }

    /** One row of the scan: `stop` when it is valid and no register is empty. */
    method FlushRow(vmid: nat, i: nat) returns (stop: bool)
      requires Layout(lr, current, rows) && vmid == current && i < ENTRIES
      modifies this`lr, this`rows
      ensures Layout(lr, current, rows)
      ensures |lr| == |old(lr)| && rows == old(rows)[vmid := rows[vmid]] && rows[vmid].saved == old(rows)[vmid].saved
      ensures Flush(old(ViewOf(lr, current, rows, vmid)), old(rows[vmid].queue), i, cpu) ==
        if stop then Flushed(ViewOf(lr, current, rows, vmid), rows[vmid].queue)
        else Flush(ViewOf(lr, current, rows, vmid), rows[vmid].queue, i + 1, cpu)
    {
      assert Fits(rows[vmid], |lr|);
      stop := false;
      var e := rows[vmid].queue[i];
      if e.valid {
        var slot := Present(vmid, e, PRIORITY_DEFAULT, cpu);
        stop := slot == NOT_FOUND;
        if !stop {
          rows := rows[vmid := rows[vmid].(queue := rows[vmid].queue[i := e.(valid := false)])];
        }
      }
    }

    /** Moves queued interrupts into empty registers, in row order, until no register is empty. */
    method FlushVirqs(vmid: nat)
      requires Layout(lr, current, rows) && vmid == current
      modifies this`lr, this`rows
      ensures var r := Flush(old(ViewOf(lr, current, rows, vmid)), old(rows[vmid].queue), 0, cpu);
        lr == r.slots.lr && rows == old(rows)[vmid := Drained(old(rows)[vmid], r)]
    {
      assert Fits(rows[vmid], |lr|);
      ghost var r := Flush(ViewOf(lr, current, rows, vmid), rows[vmid].queue, 0, cpu);
      var i, stop := 0, false;
      while i < ENTRIES && !stop
        invariant i <= ENTRIES && Layout(lr, current, rows)
        invariant |lr| == |old(lr)| && rows == old(rows)[vmid := rows[vmid]]
          && rows[vmid].saved == old(rows)[vmid].saved
        invariant r == if stop then Flushed(ViewOf(lr, current, rows, vmid), rows[vmid].queue)
                       else Flush(ViewOf(lr, current, rows, vmid), rows[vmid].queue, i, cpu)
        decreases ENTRIES - i
      {
        stop := FlushRow(vmid, i);
        i := i + 1;
      }
      assert Fits(rows[vmid], |lr|);
    }

    /** Flushes the queue of the guest that runs. */
    method FlushRunning(vmid: nat)
      requires Valid() && vmid == current
      modifies this`lr, this`rows
      ensures Valid()
      ensures var r := Flush(old(ViewOf(lr, current, rows, vmid)), old(rows[vmid].queue), 0, cpu);
        lr == r.slots.lr && rows == old(rows)[vmid := Drained(old(rows)[vmid], r)]
      ensures FlushedOnly(old(lr), old(rows), vmid) == true
    {
      ghost var v := ViewOf(lr, current, rows, vmid);
      ghost var r := Flush(v, rows[vmid].queue, 0, cpu);
      FlushConsistent(lr, current, rows, accepted, deactivated, r, cpu);
      FlushDelivers(v, rows[vmid].queue, cpu, r);
      FlushVirqs(vmid);
      assert Slots(lr, rows[vmid].pirq, rows[vmid].virq) == r.slots;
    }

    /** The queue of guest `g`, which runs, was flushed, and nothing else changed. */
    ghost predicate FlushedOnly(lr0: seq<word>, rows0: seq<Guest>, g: nat)
      reads this`lr, this`rows
    {
      && g < |rows0| == |rows| && rows == rows0[g := rows[g]] && rows[g].saved == rows0[g].saved
      && Delivery(Slots(lr0, rows0[g].pirq, rows0[g].virq), rows0[g].queue,
                  Flushed(Slots(lr, rows[g].pirq, rows[g].virq), rows[g].queue), cpu)
    }

    /**
     * A software-generated interrupt of processor `at`: refused unless that number is the running guest's, and unless
     * it asks for a slot check, which flushes the guest's queue.
     */
    method SlotCheck(at: nat, slotCheck: bool) returns (result: Outcome)
      requires Valid()
      modifies this`lr, this`rows
      ensures Valid()
      ensures result == if at == current && slotCheck then Success else BadAccess
      ensures result == BadAccess ==> lr == old(lr) && rows == old(rows)
      ensures result == Success ==>
        var r := Flush(old(ViewOf(lr, current, rows, at)), old(rows[at].queue), 0, cpu);
        lr == r.slots.lr && rows == old(rows)[at := Drained(old(rows)[at], r)]
      ensures result == Success ==> FlushedOnly(old(lr), old(rows), at) == true
    {
      result := BadAccess;
      if at != current {
        return;
      }
      if slotCheck {
        FlushRunning(at);
        result := Success;
      }
    }

    /** The running guest gets an interrupt into a register, or nothing happens. */
    method InjectCurrent(vmid: nat, e: Entry, priority: word, source: word) returns (result: Outcome)
      requires Valid() && vmid == current && e.valid
      modifies this`lr, this`rows, this`accepted
      ensures Valid()
      ensures result == if FreeSlot(old(lr)) < |old(lr)| then Success else Busy
      ensures accepted == old(accepted) + Taken(old(lr), e)
      ensures var u := Injected(old(ViewOf(lr, current, rows, vmid)), e, priority, source);
        lr == u.lr && rows == old(rows)[vmid := Retabled(old(rows)[vmid], u)]
    {
      ghost var lr0, rows0, taken := lr, rows, Taken(lr, e);
      var slot := Present(vmid, e, priority, source);
      assert Consistent(lr, current, rows, accepted + taken, deactivated) == true by {
        InjectedKeeps(lr0, current, rows0, accepted, deactivated, e, priority, source, lr, rows);
      }
      accepted := accepted + taken;
      result := if slot == NOT_FOUND then Busy else Success;
    }

    /** A guest that is not running has the interrupt queued, unless a slot already holds it or the queue is full. */
    method InjectOther(vmid: nat, e: Entry) returns (result: Outcome)
      requires Valid() && vmid < |rows| && e.valid
      modifies this`rows, this`accepted
      ensures Valid()
      ensures result == if Refused(old(rows)[vmid], e) then Busy else Success
      ensures rows == old(rows)[vmid := Queued(old(rows)[vmid], e)]
      ensures accepted == old(accepted) + if result == Success then EntryOwes(e) else multiset{}
    {
      assert Fits(rows[vmid], |lr|);
      var slot := SlotOfVirq(rows[vmid].virq, e.virq);
      if slot == NOT_FOUND {
        var i := FirstFreeRow(rows[vmid].queue);
        if i < ENTRIES {
          EnqueueKeeps(lr, current, rows, accepted, deactivated, vmid, i, e);
          rows := rows[vmid := rows[vmid].(queue := rows[vmid].queue[i := e])];
          accepted := accepted + EntryOwes(e);
          return Success;
        }
      }
      result := Busy;
      assert accepted + multiset{} == accepted;
    }

    /** Injection: `notify` asks for a slot check of the guest's CPU. */
    method VirqInject(vmid: nat, virq: word, pirq: word, hw: bool) returns (result: Outcome, notify: bool)
      requires Valid() && vmid < |rows|
      modifies this`lr, this`rows, this`accepted
      ensures Valid()
      ensures accepted == old(accepted) +
        if result == Success then EntryOwes(Entry(pirq, virq, hw, true)) else multiset{}
      ensures vmid == current ==> !notify && result == if FreeSlot(old(lr)) < |old(lr)| then Success else Busy
      ensures vmid == current ==>
        var u := Injected(old(ViewOf(lr, current, rows, vmid)), Entry(pirq, virq, hw, true),
                          if hw then PRIORITY_DEFAULT else 0, if hw then cpu else names[vmid]);
        lr == u.lr && rows == old(rows)[vmid := Retabled(old(rows)[vmid], u)]
      ensures vmid != current ==>
        lr == old(lr) && rows == old(rows)[vmid := Queued(old(rows)[vmid], Entry(pirq, virq, hw, true))]
      ensures vmid != current ==>
        result == if Refused(old(rows)[vmid], Entry(pirq, virq, hw, true)) then Busy else Success
      ensures vmid != current ==> (notify <==> result == Success && virq < 16)
      ensures |rows| == |old(rows)| && rows == old(rows)[vmid := rows[vmid]]
      ensures vmid == current ==>
        Delivered(old(lr), old(rows)[vmid], lr, rows[vmid], virq, pirq, hw, if hw then cpu else names[vmid]) == true
      ensures vmid != current ==> KeptFor(old(rows)[vmid], rows[vmid], virq, pirq, hw) == true
    {
      var e := Entry(pirq, virq, hw, true);
      assert Fits(rows[vmid], |lr|);
      if vmid != current {
        result := InjectOther(vmid, e);
        notify := result == Success && virq < 16;
        return;
      }
      notify := false;
      InjectedDelivers(lr, rows[vmid], Injected(ViewOf(lr, current, rows, vmid), e, if hw then PRIORITY_DEFAULT else 0,
                       if hw then cpu else names[vmid]), virq, pirq, hw, if hw then cpu else names[vmid]);
      if hw {
        result := InjectCurrent(vmid, e, PRIORITY_DEFAULT, cpu);
      } else {
        result := InjectCurrent(vmid, e, 0, names[vmid]);
      }
    }

    /** A physical interrupt offered to one guest, which gets it if it has it enabled. */
    method Offer(vmid: nat, virq: word, pirq: word)
      requires Valid() && vmid < |rows|
      modifies this`lr, this`rows, this`accepted
      ensures Valid() == true && |rows| == |old(rows)| && rows == old(rows)[vmid := rows[vmid]]
      ensures vmid != current ==> lr == old(lr)
      ensures Reached(vmid == current, old(lr), old(rows)[vmid], lr, rows[vmid], virq, pirq, cpu) == true
    {
      if virq != INVALID {
        var result, notify := VirqInject(vmid, virq, pirq, true);
      }
    }

    /** A physical interrupt goes to every guest that has it enabled; `virqs` holds
        the guests' virtual numbers for it. */
    method InjectEnabled(pirq: word, virqs: seq<word>)
      requires Valid() && |virqs| == |rows|
      modifies this`lr, this`rows, this`accepted
      ensures Valid() == true && AllReached(old(lr), old(rows), current, virqs, pirq, cpu, lr, rows) == true
    {
      ghost var lr0, rows0 := lr, rows;
      SpreadNone(lr0, rows0, current, virqs, pirq, cpu);
      var i := 0;
      while i < |virqs|
        invariant i <= |virqs| == |rows| && Valid() == true
        invariant Spread(lr0, rows0, current, virqs, pirq, cpu, i, lr, rows) == true
      {
        OfferNext(i, virqs, pirq, lr0, rows0);
        i := i + 1;
      }
      SpreadAll(lr0, rows0, current, virqs, pirq, cpu, lr, rows);
    }

    method OfferNext(i: nat, virqs: seq<word>, pirq: word, ghost lr0: seq<word>, ghost rows0: seq<Guest>)
      requires Valid() && i < |virqs| == |rows|
      requires Spread(lr0, rows0, current, virqs, pirq, cpu, i, lr, rows) == true
      modifies this`lr, this`rows, this`accepted
      ensures Valid() == true && |rows| == |virqs|
      ensures Spread(lr0, rows0, current, virqs, pirq, cpu, i + 1, lr, rows) == true
    {
      Offer(i, virqs[i], pirq);
      SpreadStep(lr0, rows0, current, virqs, pirq, cpu, i, old(lr), old(rows), lr, rows);
    }

    /** Cleaning one ended register: the register, its table rows, and the deactivation it may ask for. */
    method EndSlot(vmid: nat, slot: nat) returns (ended: seq<word>)
      requires Layout(lr, current, rows) && vmid == current && slot < |lr|
      modifies this`lr, this`rows
      ensures lr == old(lr)[slot := 0]
      ensures var row := old(rows)[vmid];
        rows == old(rows)[vmid := row.(pirq := row.pirq[slot := INVALID], virq := row.virq[slot := INVALID])]
      ensures ended == if old(rows)[vmid].pirq[slot] != INVALID then [old(rows)[vmid].pirq[slot]] else []
    {
      assert Fits(rows[vmid], |lr|);
      lr := lr[slot := 0];
      var row := rows[vmid];
      ended := [];
      if row.pirq[slot] != INVALID {
        ended := [row.pirq[slot]];
        row := row.(pirq := row.pirq[slot := INVALID]);
      }
      assert row.pirq == rows[vmid].pirq[slot := INVALID];
      rows := rows[vmid := row.(virq := row.virq[slot := INVALID])];
    }

    /** The loop of the maintenance interrupt: ended registers from the highest down. `ended`
        lists the deactivations. */
    method EndAll(vmid: nat) returns (ended: seq<word>)
      requires Layout(lr, current, rows) && vmid == current
      modifies this`lr, this`rows
      ensures ended == Ends(old(ViewOf(lr, current, rows, vmid)), 0)
      ensures var u := Maintained(old(ViewOf(lr, current, rows, vmid)), 0);
        lr == u.lr && rows == old(rows)[vmid := Retabled(old(rows)[vmid], u)]
    {
      assert Fits(rows[vmid], |lr|);
      ghost var v := ViewOf(lr, current, rows, vmid);
      ghost var k: nat := |lr|;
      var eisr := ReadEisr(lr);
      ghost var all := BitsOf(eisr);
      ended := [];
      MaintainedNone(v);
      while eisr != 0
        invariant Layout(lr, current, rows) && k <= |v.lr| == |lr|
        invariant forall i: nat :: i in BitsOf(eisr) <==> i in all && i < k
        invariant ViewOf(lr, current, rows, vmid) == Maintained(v, k) && ended == Ends(v, k)
        invariant rows == old(rows)[vmid := Retabled(old(rows)[vmid], Maintained(v, k))]
        decreases k
      {
        var slot, rest := TakeLast(eisr);
        EndsSkip(v, slot + 1, k);
        MaintainedStep(v, slot);
        var one := EndSlot(vmid, slot);
        ended := ended + one;
        eisr := rest;
        k := slot;
      }
      ZeroIsEmpty(eisr);
      EndsSkip(v, 0, k);
    }

    /** The maintenance interrupt. */
    method MaintenanceIsr() returns (ended: seq<word>)
      requires Valid()
      modifies this`lr, this`rows, this`deactivated
      ensures Valid()
      ensures ended == Ends(old(ViewOf(lr, current, rows, current)), 0)
        && deactivated == old(deactivated) + multiset(ended)
      ensures var u := Maintained(old(ViewOf(lr, current, rows, current)), 0);
        lr == u.lr && rows == old(rows)[current := Retabled(old(rows)[current], u)]
      ensures var row := old(rows)[current];
        && CleanedOf(Slots(old(lr), row.pirq, row.virq), Slots(lr, rows[current].pirq, rows[current].virq)) == true
        && rows == old(rows)[current := row.(pirq := rows[current].pirq, virq := rows[current].virq)]
    {
      ghost var v := ViewOf(lr, current, rows, current);
      MaintainedCleans(v, Maintained(v, 0));
      ghost var lr0, rows0 := lr, rows;
      ended := EndAll(current);
      assert Consistent(lr, current, rows, accepted, deactivated + multiset(ended)) == true by {
        MaintenanceKeeps(lr0, current, rows0, accepted, deactivated, v, Maintained(v, 0));
      }
      deactivated := deactivated + multiset(ended);
    }

    /** Saves the interface into the running guest's status, then disables it. */
    method SaveStatus()
      requires Valid()
      modifies this`rows, this`control
      ensures Valid() && rows == Saved(lr, old(control), current, old(rows))
      ensures control == old(control).(hcr := old(control).hcr & !HCR_ENABLE)
    {
      SaveKeeps(lr, current, rows, accepted, deactivated, Status(lr, control, true));
      rows := Saved(lr, control, current, rows);
      control := control.(hcr := control.hcr & !HCR_ENABLE);
    }

    /** Loads the registers of a guest. */
    method Load(vmid: nat)
      requires Valid() && vmid < |rows| && rows[current].saved.lr == lr
      modifies this`current, this`lr, this`control
      ensures Valid() && current == vmid && lr == rows[vmid].saved.lr && control == rows[vmid].saved.control
    {
      SwitchKeeps(lr, current, rows, accepted, deactivated, vmid);
      current := vmid;
      lr := rows[vmid].saved.lr;
      control := rows[vmid].saved.control;
    }

    /** Loads the interface from the status of a guest, flushes its queue and enables it. */
    method RestoreStatus(vmid: nat)
      requires Valid() && vmid < |rows| && rows[current].saved.lr == lr
      modifies this`current, this`lr, this`control, this`rows
      ensures Valid() && current == vmid
      ensures Fits(old(rows)[vmid], |old(lr)|) && Resumed(lr, control, rows) == Resume(old(rows), vmid, cpu)
    {
      assert Fits(rows[vmid], |lr|);
      ghost var rows0 := rows;
      Load(vmid);
      ghost var lr0, v := lr, ViewOf(lr, vmid, rows, vmid);
      ghost var r := Flush(v, rows[vmid].queue, 0, cpu);
      FlushRunning(vmid);
      control := control.(hcr := control.hcr | HCR_ENABLE);
      ResumeMade(rows0, vmid, cpu, lr0, v, r, Resumed(lr, control, rows));
    }

    /** A context switch: the guest that leaves keeps its registers in its status, the next one gets its own back. */
    method Switch(next: nat)
      requires Valid() && next < |rows|
      modifies this`current, this`lr, this`control, this`rows
      ensures Valid() == true && current == next
      ensures Resumed(lr, control, rows) == old(Switched(lr, control, current, rows, next, cpu))
      ensures Exchanged(old(lr), old(control), old(current), old(rows), next, cpu, Resumed(lr, control, rows)) == true
    {
      ghost var s := Switched(lr, control, current, rows, next, cpu);
      assert Exchanged(lr, control, current, rows, next, cpu, s) == true by {
        SwitchedExchanges(lr, control, current, rows, next, cpu, s);
      }
      SwitchAs(next, s);
    }

    method SwitchAs(next: nat, ghost s: Resumed)
      requires Valid() && next < |rows| && s == Switched(lr, control, current, rows, next, cpu)
      modifies this`current, this`lr, this`control, this`rows
      ensures Valid() == true && current == next && Resumed(lr, control, rows) == s
    {
      SaveStatus();
      RestoreStatus(next);
    }

    /** The running guest acknowledges a pending interrupt. */
    method GuestAck(s: nat)
      requires Valid() && s < |lr| && State(lr[s]) == STATE_PENDING
      modifies this`lr
      ensures Valid() && lr == old(lr)[s := Acked(old(lr)[s])]
    {
      GuestMoveKeeps(lr, current, rows, accepted, deactivated, s, Acked(lr[s]));
      lr := lr[s := Acked(lr[s])];
    }

    /** The running guest ends an active interrupt, which asks for maintenance. */
    method GuestEoi(s: nat)
      requires Valid() && s < |lr| && State(lr[s]) == STATE_ACTIVE
      modifies this`lr
      ensures Valid() && lr == old(lr)[s := Ended(old(lr)[s])] && EoiPending(lr[s])
    {
      GuestMoveKeeps(lr, current, rows, accepted, deactivated, s, Ended(lr[s]));
      lr := lr[s := Ended(lr[s])];
    }
  }
}
