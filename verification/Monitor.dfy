/** The breakpoint and trace manager of one guest, and the handler of its traps. */
module Monitor {
  import opened Machine
  import opened Breakpoints

  class Manager {
    /** Translation of the guest's addresses. */
    const pa: nat -> int
    /** The guest's own words. */
    ghost const orig: nat -> Word
    const inst: array<Slot>
    var mem: imap<int, Word>
    var trappedVa: int
    var trappedPa: int
    /** The guest's program counter in the trap frame. */
    var pc: nat

    ghost function State(): Guest
      reads this, inst
    {
      Guest(mem, inst[..])
    }

    ghost predicate Valid()
      reads this, inst
    {
      inst.Length == SLOTS && Linear(pa) && Sound(pa, State(), orig)
    }

    /** No point set yet. */
    constructor (translate: nat -> int, memory: imap<int, Word>, ghost words: nat -> Word)
      requires Linear(translate) && forall va: nat :: translate(va) in memory && memory[translate(va)] == words(va)
      ensures Valid() && fresh(inst) && inst.Length == 100 && pa == translate && mem == memory && orig == words
    {
      pa, orig, mem := translate, words, memory;
      inst := new Slot[SLOTS](i => FREE);
      trappedVa, trappedPa, pc := 0, 0, 0;
      new;
      forall va: nat
        ensures Load(inst[..], va) == 0 && KindsAt(inst[..], va) == {}
      {
        assert Find(inst[..], va) < SLOTS ==> inst[..][Find(inst[..], va)] == FREE;
      }
    }

    method StoreInst(va: nat, kind: Kind) returns (found: bool)
      requires pa(va) in mem
      modifies inst
      ensures var r := Store(old(inst[..]), mem[pa(va)], va, kind); inst[..] == r.table && found == r.done
    {
      found := false;
      var i := 0;
      while i < inst.Length
        invariant i <= Find(old(inst[..]), va) && inst[..] == old(inst[..])
      {
        if inst[i].va == va {
          inst[i] := inst[i].(kinds := inst[i].kinds + {kind});
          return;
        }
        i := i + 1;
      }
      i := 0;
      while i < inst.Length
        invariant i <= FindFree(old(inst[..])) && inst[..] == old(inst[..])
      {
        if inst[i].inst == 0 {
          inst[i] := Slot(mem[pa(va)], va, {kind});
          return true;
        }
        i := i + 1;
      }
    }

    method InstType(va: nat) returns (kinds: set<Kind>)
      ensures kinds == KindsAt(inst[..], va)
    {
      var i := 0;
      while i < inst.Length
        invariant i <= Find(inst[..], va)
      {
        if inst[i].va == va {
          return inst[i].kinds;
        }
        i := i + 1;
      }
      kinds := {};
    }

    method CleanInst(va: nat, kinds: set<Kind>) returns (found: bool)
      modifies inst
      ensures var r := Clean(old(inst[..]), va, kinds); inst[..] == r.table && found == r.done
    {
      found := false;
      var i := 0;
      while i < inst.Length
        invariant i <= Find(old(inst[..]), va) && inst[..] == old(inst[..])
      {
        if inst[i].va == va {
          inst[i] := inst[i].(kinds := inst[i].kinds - kinds);
          if inst[i].kinds == {} {
            inst[i] := FREE;
            return true;
          }
          break;
        }
        i := i + 1;
      }
    }

    method LoadInst(va: nat) returns (word: Word)
      ensures word == Load(inst[..], va)
    {
      var i := 0;
      while i < inst.Length
        invariant i <= Find(inst[..], va)
      {
        if inst[i].va == va {
          return inst[i].inst;
        }
        i := i + 1;
      }
      word := 0;
    }

    /** Sets a breakpoint or a tracepoint. */
    method InsertPoint(va: nat, kind: Kind)
      requires Valid() && va != 0 && orig(va) != 0 && kind != Retrap
      modifies this`mem, inst
      ensures Valid() && State() == Insert(pa, old(State()), va, kind)
      ensures old(Load(inst[..], va)) == 0 ==> pa(va) in old(mem) && old(mem)[pa(va)] == orig(va)
      ensures PointSet(pa, old(State()), State(), va, kind) == true
    {
      InsertKeeps(pa, State(), va, kind, orig);
      assert Under(pa, State(), va) == orig(va);
      InsertSets(pa, State(), va, kind, mem[pa(va)], Insert(pa, State(), va, kind));
      var found := StoreInst(va, kind);
      if found {
        mem := mem[pa(va) := HVC_TRAP];
      }
    }

    method CleanPoint(va: nat, kinds: set<Kind>)
      modifies this`mem, inst
      ensures State() == CleanOne(pa, old(State()), va, kinds)
    {
      var word := LoadInst(va);
      if word != 0 {
        var found := CleanInst(va, kinds);
        if found {
          mem := mem[pa(va) := word];
        }
      }
    }

    /** Drops types from a point, and the retrap after it. */
    method CleanGuestPoint(va: nat, kinds: set<Kind>)
      requires Valid()
      modifies this`mem, inst
      ensures Valid() && State() == CleanGuest(pa, old(State()), va, kinds)
      ensures PointCleaned(pa, old(State()), State(), va, kinds) == true
    {
      CleanGuestKeeps(pa, State(), va, kinds, orig);
      CleanGuestCleans(pa, State(), va, kinds, CleanGuest(pa, State(), va, kinds));
      CleanPoint(va, kinds);
      CleanPoint(va + 4, {Retrap});
    }

    /** Cleans every row. */
    method CleanAllGuest()
      requires Valid()
      modifies this`mem, inst
      ensures Valid() && State() == CleanAll(pa, old(State()), 0)
      ensures FreeBelow(inst[..], SLOTS)
      ensures forall va: nat :: pa(va) in mem && mem[pa(va)] == orig(va)
    {
      CleanAllRestores(pa, State(), 0, orig);
      var i := 0;
      while i < SLOTS
        invariant i <= SLOTS && Valid() && CleanAll(pa, State(), i) == CleanAll(pa, old(State()), 0)
      {
        if inst[i].inst != 0 {
          CleanGuestPoint(inst[i].va, {Trace, Retrap, Break});
        }
        i := i + 1;
      }
      forall va: nat
        ensures pa(va) in mem && mem[pa(va)] == orig(va)
      {
        EmptyTable(pa, State(), orig, va);
      }
    }

    /** Puts the trapped word back. */
    method PreHandler()
      requires pc >= 4
      modifies this`mem, this`trappedVa, this`trappedPa
      ensures trappedVa == pc - 4 && trappedPa == pa(pc - 4)
      ensures mem == if Load(inst[..], pc - 4) != 0 then old(mem)[pa(pc - 4) := Load(inst[..], pc - 4)] else old(mem)
    {
      var va := pc - 4;
      trappedVa, trappedPa := va, pa(va);
      var word := LoadInst(va);
      if word != 0 {
        mem := mem[trappedPa := word];
      }
    }

    /** Arms the next word. */
    method TraceHandler()
      requires pc >= 4 && pa(pc) in mem
      modifies this`mem, this`trappedVa, inst
      ensures var r := Store(old(inst[..]), old(mem)[pa(pc)], pc, Retrap);
        inst[..] == r.table && mem == (if r.done then old(mem)[trappedPa + 4 := HVC_TRAP] else old(mem))
    {
      trappedVa := pc - 4;
      var found := StoreInst(pc, Retrap);
      if found {
        mem := mem[trappedPa + 4 := HVC_TRAP];
      }
    }

    /** Drops the retrap and arms the word before it again. */
    method RetrapHandler()
      requires trappedVa >= 0
      modifies this`mem, inst
      ensures inst[..] == Clean(old(inst[..]), trappedVa, {Retrap}).table && mem == old(mem)[trappedPa - 4 := HVC_TRAP]
    {
      var found := CleanInst(trappedVa, {Retrap});
      mem := mem[trappedPa - 4 := HVC_TRAP];
    }

    method OnTrace()
      requires pc >= 4 && pa(pc) in mem && Follows(pa, pc - 4) && KindsAt(inst[..], pc - 4) == {Trace}
      modifies this`mem, this`trappedVa, this`trappedPa, this`pc, inst
      ensures Resumed(State(), pc) == Trap(pa, old(State()), old(pc))
    {
      PreHandler();
      TraceHandler();
      pc := pc - 4;
    }

    method OnRetrap()
      requires pc >= 4 && pa(pc) in mem && KindsAt(inst[..], pc - 4) == {Retrap}
      modifies this`mem, this`trappedVa, this`trappedPa, this`pc, inst
      ensures Resumed(State(), pc) == Trap(pa, old(State()), old(pc))
    {
      PreHandler();
      RetrapHandler();
      pc := pc - 4;
    }

    /** Only exact types have a handler; a break only rewinds
        (the switch to the other guest is not part of this model). */
    method Dispatch()
      requires pc >= 4 && pa(pc) in mem && Follows(pa, pc - 4)
      modifies this`mem, this`trappedVa, this`trappedPa, this`pc, inst
      ensures Resumed(State(), pc) == Trap(pa, old(State()), old(pc))
    {
      var kinds := InstType(pc - 4);
      if kinds == {Break} {
        pc := pc - 4;
      } else if kinds == {Trace} {
        OnTrace();
      } else if kinds == {Retrap} {
        OnRetrap();
      }
    }

    /** A trap taken by an HVC. */
    method Write()
      requires Valid() && pc >= 4 && (KindsAt(inst[..], pc - 4) == {Trace} ==> orig(pc) != 0)
      modifies this`mem, this`trappedVa, this`trappedPa, this`pc, inst
      ensures Valid() && Resumed(State(), pc) == Trap(pa, old(State()), old(pc))
      ensures TrapTaken(pa, old(State()), old(pc), Resumed(State(), pc)) == true
    {
      TrapKeeps(pa, State(), pc, orig);
      assert Under(pa, State(), pc) == orig(pc);
      TrapTakes(pa, State(), pc, Trap(pa, State(), pc));
      assert Follows(pa, pc - 4);
      Dispatch();
    }
  }
}
