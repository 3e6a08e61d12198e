/** The monitoring points of one guest: the table of saved words, and the guest memory patched with traps. */
module Breakpoints {
  import opened Machine

  const HVC_TRAP: Word := 0xe14f_ff7c
  const SLOTS: nat := 100

  datatype Kind = Trace | Retrap | Break

  /** A row of the table; saved word 0 marks a free one. `kinds` holds the type bits. */
  datatype Slot = Slot(inst: Word, va: nat, kinds: set<Kind>)

  const FREE: Slot := Slot(0, 0, {})

  /** Guest memory by physical address, and the table. */
  datatype Guest = Guest(mem: imap<int, Word>, table: seq<Slot>)

  // ---------------------------------------------------------------- the table

  /** The first row for an address, or the number of rows. */
  function Find(t: seq<Slot>, va: nat): (i: nat)
    ensures i <= |t|
    ensures i < |t| ==> t[i].va == va
    ensures forall j :: 0 <= j < i ==> t[j].va != va
  {
    if t == [] then 0 else if t[0].va == va then 0 else Find(t[1..], va) + 1
  }

  /** The first row with no saved word, or the number of rows. */
  function FindFree(t: seq<Slot>): (i: nat)
    ensures i <= |t|
    ensures i < |t| ==> t[i].inst == 0
    ensures forall j :: 0 <= j < i ==> t[j].inst != 0
  {
    if t == [] then 0 else if t[0].inst == 0 then 0 else FindFree(t[1..]) + 1
  }

  function KindsAt(t: seq<Slot>, va: nat): set<Kind> {
    if Find(t, va) < |t| then t[Find(t, va)].kinds else {}
  }

  /** The saved word of an address, or 0 when it has none. */
  function Load(t: seq<Slot>, va: nat): Word {
    if Find(t, va) < |t| then t[Find(t, va)].inst else 0
  }

  datatype Changed = Changed(table: seq<Slot>, done: bool)

  /** Remembers a word: a known address only gains a type, a new one takes the first free row. */
  function Store(t: seq<Slot>, word: Word, va: nat, kind: Kind): (r: Changed)
    ensures |r.table| == |t|
  {
    var i, j := Find(t, va), FindFree(t);
    if i < |t| then Changed(t[i := t[i].(kinds := t[i].kinds + {kind})], false)
    else if j < |t| then Changed(t[j := Slot(word, va, {kind})], true)
    else Changed(t, false)
  }

  /** Drops types from a row, and the row with the last of them. */
  function Clean(t: seq<Slot>, va: nat, kinds: set<Kind>): (r: Changed)
    ensures |r.table| == |t|
  {
    var i := Find(t, va);
    if i == |t| then Changed(t, false)
    else if t[i].kinds - kinds == {} then Changed(t[i := FREE], true)
    else Changed(t[i := t[i].(kinds := t[i].kinds - kinds)], false)
  }

  // ---------------------------------------------------------------- operations on a guest

  /** Sets a breakpoint or tracepoint. */
  function Insert(pa: nat -> int, g: Guest, va: nat, kind: Kind): Guest
    requires pa(va) in g.mem
  {
    var r := Store(g.table, g.mem[pa(va)], va, kind);
    Guest(if r.done then g.mem[pa(va) := HVC_TRAP] else g.mem, r.table)
  }

  /** Drops types from one address; when its row goes, its word is put back. */
  function CleanOne(pa: nat -> int, g: Guest, va: nat, kinds: set<Kind>): Guest {
    var r := Clean(g.table, va, kinds);
    if Load(g.table, va) == 0 then g
    else Guest(if r.done then g.mem[pa(va) := Load(g.table, va)] else g.mem, r.table)
  }

  /** Drops types from an address, and the retrap that stands at the next word. */
  function CleanGuest(pa: nat -> int, g: Guest, va: nat, kinds: set<Kind>): Guest {
    CleanOne(pa, CleanOne(pa, g, va, kinds), va + 4, {Retrap})
  }

  /** Drops everything, row by row from row `i`. */
  function CleanAll(pa: nat -> int, g: Guest, i: nat): Guest
    decreases |g.table| - i
  {
    if i >= |g.table| then g
    else if g.table[i].inst == 0 then CleanAll(pa, g, i + 1)
    else CleanAll(pa, CleanGuest(pa, g, g.table[i].va, {Trace, Retrap, Break}), i + 1)
  }

  /** What a trap leaves behind: the guest, and the address it resumes at. */
  datatype Resumed = Resumed(guest: Guest, pc: nat)

  /** The trap taken by the HVC before `pc`; only exact types have a handler. */
  function Trap(pa: nat -> int, g: Guest, pc: nat): Resumed
    requires pc >= 4 && pa(pc) in g.mem
  {
    var va := pc - 4;
    var kinds := KindsAt(g.table, va);
    var restored := if Load(g.table, va) != 0 then g.mem[pa(va) := Load(g.table, va)] else g.mem;
    if kinds == {Break} then Resumed(g, va)
    else if kinds == {Trace} then
      var r := Store(g.table, restored[pa(pc)], pc, Retrap);
      Resumed(Guest(if r.done then restored[pa(va) + 4 := HVC_TRAP] else restored, r.table), va)
    else if kinds == {Retrap} then
      Resumed(Guest(restored[pa(va) - 4 := HVC_TRAP], Clean(g.table, va, {Retrap}).table), va)
    else Resumed(g, pc)
  }

  // ---------------------------------------------------------------- what every operation keeps

  ghost predicate Follows(pa: nat -> int, a: nat) {
    pa(a + 4) == pa(a) + 4
  }

  /** Translation is one-to-one, and consecutive words stay consecutive. */
  ghost predicate Linear(pa: nat -> int) {
    (forall a, b :: pa(a) == pa(b) ==> a == b) && (forall a :: Follows(pa, a))
  }

  predicate SlotOk(s: Slot) {
    s == FREE || (s.inst != 0 && s.va != 0 && s.kinds != {})
  }

  /** Rows are free or complete, and no address has two. */
  predicate Tidy(t: seq<Slot>) {
    && (forall i :: 0 <= i < |t| ==> SlotOk(t[i]))
    && (forall i, j :: 0 <= i < j < |t| && t[i].va != 0 ==> t[i].va != t[j].va)
  }

  /** The guest's own word at an address: the saved one if the address is in the table. */
  function Under(pa: nat -> int, g: Guest, va: nat): Word
    requires pa(va) in g.mem
  {
    if Load(g.table, va) != 0 then Load(g.table, va) else g.mem[pa(va)]
  }

  ghost predicate Original(pa: nat -> int, g: Guest, orig: nat -> Word) {
    forall va :: pa(va) in g.mem && Under(pa, g, va) == orig(va)
  }

  predicate RetrapOk(t: seq<Slot>, va: nat) {
    va >= 4 && Trace in KindsAt(t, va - 4)
  }

  /** A retrap stands only after a tracepoint. */
  ghost predicate RetrapsFollow(t: seq<Slot>) {
    forall va: nat :: Retrap in KindsAt(t, va) ==> RetrapOk(t, va)
  }

  ghost predicate Sound(pa: nat -> int, g: Guest, orig: nat -> Word) {
    Tidy(g.table) && Original(pa, g, orig) && RetrapsFollow(g.table)
  }

  lemma FindRow(t: seq<Slot>, i: nat)
    requires Tidy(t) && i < |t| && t[i].va != 0
    ensures Find(t, t[i].va) == i
  {
  }

  lemma NoAddressZero(t: seq<Slot>)
    requires Tidy(t)
    ensures Load(t, 0) == 0 && KindsAt(t, 0) == {}
  {
  }

  /** An address is in the table exactly when it has a saved word, and exactly when it has a type. */
  lemma Known(t: seq<Slot>, va: nat)
    requires Tidy(t) && va != 0
    ensures Find(t, va) < |t| <==> Load(t, va) != 0
    ensures Load(t, va) != 0 <==> KindsAt(t, va) != {}
  {
  }

  /** Lookups after one row was rewritten. */
  lemma Rewritten(t: seq<Slot>, i: nat, s: Slot, va: nat)
    requires Tidy(t) && i < |t| && va != 0 && SlotOk(s)
    requires forall j :: 0 <= j < |t| && j != i && s.va != 0 ==> t[j].va != s.va
    ensures Tidy(t[i := s])
    ensures Load(t[i := s], va) == if s.va == va then s.inst else if t[i].va == va then 0 else Load(t, va)
    ensures KindsAt(t[i := s], va) == if s.va == va then s.kinds else if t[i].va == va then {} else KindsAt(t, va)
  {
    var u := t[i := s];
    assert forall j :: 0 <= j < |t| && j != i ==> u[j] == t[j];
    var k := Find(t, va);
    if s.va == va {
      FindRow(u, i);
    } else if k < |t| && k != i {
      FindRow(u, k);
      FindRow(t, k);
    }
  }

  /** What storing does to every lookup. */
  lemma Stored(t: seq<Slot>, word: Word, va: nat, kind: Kind, x: nat)
    requires Tidy(t) && va != 0 && (Load(t, va) == 0 ==> word != 0)
    ensures var r := Store(t, word, va, kind);
      && Tidy(r.table) && (r.done <==> Load(t, va) == 0 && FindFree(t) < |t|)
      && Load(r.table, x) == (if x == va && r.done then word else Load(t, x))
      && KindsAt(r.table, x) ==
        (if x == va && (r.done || Load(t, va) != 0) then KindsAt(t, va) + {kind} else KindsAt(t, x))
  {
    var r := Store(t, word, va, kind);
    var i, j := Find(t, va), FindFree(t);
    Known(t, va);
    var y := if x == 0 then va else x;
    if i < |t| {
      FindRow(t, i);
      Rewritten(t, i, t[i].(kinds := t[i].kinds + {kind}), y);
    } else if j < |t| {
      Rewritten(t, j, Slot(word, va, {kind}), y);
    }
    NoAddressZero(t);
    NoAddressZero(r.table);
  }

  /** What cleaning does to every lookup. */
  lemma Cleaned(t: seq<Slot>, va: nat, kinds: set<Kind>, x: nat)
    requires Tidy(t) && va != 0
    ensures var r := Clean(t, va, kinds);
      && Tidy(r.table) && (r.done <==> Load(t, va) != 0 && KindsAt(t, va) - kinds == {})
      && Load(r.table, x) == (if x == va && r.done then 0 else Load(t, x))
      && KindsAt(r.table, x) == (if x == va then KindsAt(t, va) - kinds else KindsAt(t, x))
  {
    var r := Clean(t, va, kinds);
    var i := Find(t, va);
    Known(t, va);
    var y := if x == 0 then va else x;
    if i < |t| {
      FindRow(t, i);
      Rewritten(t, i, if t[i].kinds - kinds == {} then FREE else t[i].(kinds := t[i].kinds - kinds), y);
    }
    NoAddressZero(t);
    NoAddressZero(r.table);
  }

  // ---------------------------------------------------------------- what each operation leaves, in words and types

  /** Only address `va` may have another saved word or other types. */
  ghost predicate LookupsBut(t: seq<Slot>, u: seq<Slot>, va: nat) {
    forall x: nat :: x != va ==> SameLookup(t, u, x)
  }

  predicate SameLookup(t: seq<Slot>, u: seq<Slot>, x: nat) {
    Load(u, x) == Load(t, x) && KindsAt(u, x) == KindsAt(t, x)
  }

  /**
   * A point set at `va`: a known address only gains the type. An unknown one has its word saved with that type alone,
   * and HVC #0xfffc, 0xe14fff7c, in its place; without a free row nothing happens.
   */
  ghost predicate PointSet(pa: nat -> int, g: Guest, h: Guest, va: nat, kind: Kind) {
    && LookupsBut(g.table, h.table, va) && pa(va) in g.mem
    && if Load(g.table, va) != 0 then
         && h.mem == g.mem && Load(h.table, va) == Load(g.table, va)
         && KindsAt(h.table, va) == KindsAt(g.table, va) + {kind}
       else if FindFree(g.table) < |g.table| then
         && h.mem == g.mem[pa(va) := 0xe14f_ff7c] && Load(h.table, va) == g.mem[pa(va)]
         && KindsAt(h.table, va) == {kind}
       else h == g
  }

  lemma InsertSets(pa: nat -> int, g: Guest, va: nat, kind: Kind, word: Word, h: Guest)
    requires Tidy(g.table) && va != 0 && pa(va) in g.mem && word == g.mem[pa(va)]
    requires Load(g.table, va) == 0 ==> word != 0
    requires var r := Store(g.table, word, va, kind);
      h == Guest(if r.done then g.mem[pa(va) := HVC_TRAP] else g.mem, r.table)
    ensures PointSet(pa, g, h, va, kind) == true
  {
    Known(g.table, va);
    forall x: nat
      ensures x != va ==> SameLookup(g.table, h.table, x)
    {
      Stored(g.table, word, va, kind, x);
    }
    Stored(g.table, word, va, kind, va);
  }

  /** Address `x` lost the types, and its row with the last of them, when its word was put back. */
  predicate LostTypes(pa: nat -> int, g: Guest, h: Guest, x: nat, kinds: set<Kind>) {
    && KindsAt(h.table, x) == KindsAt(g.table, x) - kinds
    && Load(h.table, x) == (if KindsAt(h.table, x) == {} then 0 else Load(g.table, x))
    && pa(x) in g.mem && pa(x) in h.mem
    && h.mem[pa(x)] == if KindsAt(g.table, x) != {} && KindsAt(h.table, x) == {} then Load(g.table, x) else g.mem[pa(x)]
  }

  /** What cleaning a point takes from address `x`: the types from its own, and the retrap from the next word. */
  function Taken(va: nat, kinds: set<Kind>, x: nat): set<Kind> {
    if x == va then kinds else if x == va + 4 then {Retrap} else {}
  }

  ghost predicate PointCleaned(pa: nat -> int, g: Guest, h: Guest, va: nat, kinds: set<Kind>) {
    && (forall x: nat :: LostTypes(pa, g, h, x, Taken(va, kinds, x)))
    && forall a :: a in g.mem && a != pa(va) && a != pa(va + 4) ==> a in h.mem && h.mem[a] == g.mem[a]
  }

  /** Cleaning one address, seen from it. */
  lemma CleanOneHere(pa: nat -> int, g: Guest, va: nat, kinds: set<Kind>, h: Guest)
    requires Tidy(g.table) && pa(va) in g.mem && h == CleanOne(pa, g, va, kinds)
    ensures Tidy(h.table) && LostTypes(pa, g, h, va, kinds) == true
  {
    NoAddressZero(g.table);
    if va != 0 {
      Known(g.table, va);
      Cleaned(g.table, va, kinds, va);
    }
  }

  /** Cleaning one address, seen from another. */
  lemma CleanOneThere(pa: nat -> int, g: Guest, va: nat, kinds: set<Kind>, x: nat, h: Guest)
    requires Tidy(g.table) && Linear(pa) && pa(x) in g.mem && h == CleanOne(pa, g, va, kinds) && x != va
    ensures LostTypes(pa, g, h, x, {}) == true
  {
    NoAddressZero(g.table);
    assert pa(x) != pa(va);
    if x != 0 {
      Known(g.table, x);
    }
    if va != 0 {
      Cleaned(g.table, va, kinds, x);
    }
  }

  lemma CleanGuestCleans(pa: nat -> int, g: Guest, va: nat, kinds: set<Kind>, h: Guest)
    requires Tidy(g.table) && Linear(pa) && (forall x: nat :: pa(x) in g.mem) && h == CleanGuest(pa, g, va, kinds)
    ensures PointCleaned(pa, g, h, va, kinds) == true
  {
    var m := CleanOne(pa, g, va, kinds);
    CleanOneHere(pa, g, va, kinds, m);
    CleanOneHere(pa, m, va + 4, {Retrap}, h);
    forall x: nat
      ensures LostTypes(pa, g, h, x, Taken(va, kinds, x))
    {
      if x != va {
        CleanOneThere(pa, g, va, kinds, x, m);
      }
      if x != va + 4 {
        CleanOneThere(pa, m, va + 4, {Retrap}, x, h);
      }
      LossesJoin(pa, g, m, h, x, if x == va then kinds else {}, if x == va + 4 then {Retrap} else {});
    }
  }

  lemma LossesJoin(pa: nat -> int, g: Guest, m: Guest, h: Guest, x: nat, a: set<Kind>, b: set<Kind>)
    requires LostTypes(pa, g, m, x, a) == true && LostTypes(pa, m, h, x, b) == true
    ensures LostTypes(pa, g, h, x, if b == {} then a else if a == {} then b else a + b) == true
  {
    assert KindsAt(g.table, x) - {} == KindsAt(g.table, x) && KindsAt(m.table, x) - {} == KindsAt(m.table, x);
    assert (KindsAt(g.table, x) - a) - b == KindsAt(g.table, x) - (a + b);
  }

  /** A trap taken by the HVC before `pc`, in words and types. */
  ghost predicate TrapTaken(pa: nat -> int, g: Guest, pc: nat, r: Resumed)
    requires pc >= 4
  {
    var va := pc - 4;
    var kinds, word := KindsAt(g.table, va), Load(g.table, va);
    if kinds == {Trace} then
      r.pc == va && PointSet(pa, Guest(g.mem[pa(va) := word], g.table), r.guest, pc, Retrap)
    else if kinds == {Retrap} then
      && r.pc == va && r.guest.mem == g.mem[pa(va) := word][pa(va) - 4 := 0xe14f_ff7c]
      && LookupsBut(g.table, r.guest.table, va) && Load(r.guest.table, va) == 0 && KindsAt(r.guest.table, va) == {}
    else r.guest == g && r.pc == if kinds == {Break} then va else pc
  }

  lemma TrapTakes(pa: nat -> int, g: Guest, pc: nat, r: Resumed)
    requires Tidy(g.table) && Linear(pa) && pc >= 4 && pa(pc) in g.mem && r == Trap(pa, g, pc)
    requires KindsAt(g.table, pc - 4) == {Trace} && Load(g.table, pc) == 0 ==> g.mem[pa(pc)] != 0
    ensures TrapTaken(pa, g, pc, r) == true
  {
    var va := pc - 4;
    NoAddressZero(g.table);
    assert Follows(pa, va);
    if KindsAt(g.table, va) == {Trace} {
      Known(g.table, va);
      var m := Guest(g.mem[pa(va) := Load(g.table, va)], g.table);
      InsertSets(pa, m, pc, Retrap, m.mem[pa(pc)], r.guest);
    } else if KindsAt(g.table, va) == {Retrap} {
      Known(g.table, va);
      forall x: nat
        ensures x != va ==> SameLookup(g.table, r.guest.table, x)
      {
        Cleaned(g.table, va, {Retrap}, x);
      }
      Cleaned(g.table, va, {Retrap}, va);
    }
  }

  lemma InsertKeeps(pa: nat -> int, g: Guest, va: nat, kind: Kind, orig: nat -> Word)
    requires Sound(pa, g, orig) && Linear(pa) && va != 0 && orig(va) != 0 && kind != Retrap
    ensures Sound(pa, Insert(pa, g, va, kind), orig)
  {
    var h := Insert(pa, g, va, kind);
    assert Under(pa, g, va) == orig(va);
    forall x: nat
      ensures pa(x) in h.mem && Under(pa, h, x) == orig(x)
    {
      assert Under(pa, g, x) == orig(x);
      Stored(g.table, g.mem[pa(va)], va, kind, x);
    }
    forall x: nat | Retrap in KindsAt(h.table, x)
      ensures RetrapOk(h.table, x)
    {
      Stored(g.table, g.mem[pa(va)], va, kind, x);
      assert RetrapOk(g.table, x);
      Stored(g.table, g.mem[pa(va)], va, kind, x - 4);
    }
    Stored(g.table, g.mem[pa(va)], va, kind, va);
  }

  /** Cleaning one address keeps the guest's words; only that address loses types. */
  lemma CleanOneKeeps(pa: nat -> int, g: Guest, va: nat, kinds: set<Kind>, orig: nat -> Word)
    requires Tidy(g.table) && Original(pa, g, orig) && Linear(pa)
    ensures var h := CleanOne(pa, g, va, kinds);
      Tidy(h.table) && Original(pa, h, orig)
  {
    var h := CleanOne(pa, g, va, kinds);
    NoAddressZero(g.table);
    if Load(g.table, va) != 0 {
      forall x: nat
        ensures pa(x) in h.mem && Under(pa, h, x) == orig(x)
      {
        assert Under(pa, g, x) == orig(x);
        Cleaned(g.table, va, kinds, x);
      }
      Cleaned(g.table, va, kinds, va);
    }
  }

  lemma CleanGuestKeeps(pa: nat -> int, g: Guest, va: nat, kinds: set<Kind>, orig: nat -> Word)
    requires Sound(pa, g, orig) && Linear(pa)
    ensures Sound(pa, CleanGuest(pa, g, va, kinds), orig)
  {
    var m := CleanOne(pa, g, va, kinds);
    CleanOneKeeps(pa, g, va, kinds, orig);
    CleanOneKeeps(pa, m, va + 4, {Retrap}, orig);
    var u := Drop(m.table, va + 4, {Retrap});
    DropExact(g.table, va, kinds, m.table);
    DropExact(m.table, va + 4, {Retrap}, u);
    DroppedRetraps(g.table, m.table, u, va, kinds);
    assert CleanGuest(pa, g, va, kinds).table == u;
  }

  /** The table part of cleaning one address. */
  function Drop(t: seq<Slot>, va: nat, kinds: set<Kind>): seq<Slot> {
    if Load(t, va) == 0 then t else Clean(t, va, kinds).table
  }

  lemma DropKinds(t: seq<Slot>, va: nat, kinds: set<Kind>, x: nat, k: Kind)
    requires Tidy(t)
    ensures Tidy(Drop(t, va, kinds))
    ensures k in KindsAt(Drop(t, va, kinds), x) <==> k in KindsAt(t, x) && (x != va || k !in kinds)
  {
    NoAddressZero(t);
    if va != 0 {
      Known(t, va);
      Cleaned(t, va, kinds, x);
    }
  }

  predicate Gone(va: nat, kinds: set<Kind>, x: nat, k: Kind) {
    x == va && k in kinds
  }

  /** From `t` to `u` just the types `kinds` went from one address. */
  ghost predicate Dropped(t: seq<Slot>, u: seq<Slot>, va: nat, kinds: set<Kind>) {
    && (forall x, k :: k in KindsAt(u, x) ==> k in KindsAt(t, x) && !Gone(va, kinds, x, k))
    && (forall x, k :: k in KindsAt(t, x) ==> k in KindsAt(u, x) || Gone(va, kinds, x, k))
  }

  lemma DropExact(t: seq<Slot>, va: nat, kinds: set<Kind>, u: seq<Slot>)
    requires Tidy(t) && u == Drop(t, va, kinds)
    ensures Dropped(t, u, va, kinds)
  {
    forall x: nat, k
      ensures k in KindsAt(u, x) ==> k in KindsAt(t, x) && !Gone(va, kinds, x, k)
      ensures k in KindsAt(t, x) ==> k in KindsAt(u, x) || Gone(va, kinds, x, k)
    {
      DropKinds(t, va, kinds, x, k);
    }
  }

  /** The tracepoint before a retrap that stays is neither the cleaned address nor the one after it. */
  lemma DroppedRetraps(t: seq<Slot>, u: seq<Slot>, w: seq<Slot>, va: nat, kinds: set<Kind>)
    requires RetrapsFollow(t) && Dropped(t, u, va, kinds) && Dropped(u, w, va + 4, {Retrap})
    ensures RetrapsFollow(w)
  {
    forall x: nat | Retrap in KindsAt(w, x)
      ensures RetrapOk(w, x)
    {
      assert Retrap in KindsAt(u, x) && !Gone(va + 4, {Retrap}, x, Retrap);
      assert Retrap in KindsAt(t, x);
      assert RetrapOk(t, x);
      assert Trace in KindsAt(u, x - 4) && Trace in KindsAt(w, x - 4);
    }
  }

  lemma TrapKeeps(pa: nat -> int, g: Guest, pc: nat, orig: nat -> Word)
    requires Sound(pa, g, orig) && Linear(pa) && pc >= 4
    requires KindsAt(g.table, pc - 4) == {Trace} ==> orig(pc) != 0
    ensures Sound(pa, Trap(pa, g, pc).guest, orig)
  {
    var va := pc - 4;
    NoAddressZero(g.table);
    if KindsAt(g.table, va) == {Trace} {
      TraceKeeps(pa, g, va, orig);
    } else if KindsAt(g.table, va) == {Retrap} {
      RetrapKeeps(pa, g, va, orig);
    }
  }

  lemma TraceKeeps(pa: nat -> int, g: Guest, va: nat, orig: nat -> Word)
    requires Sound(pa, g, orig) && Linear(pa) && KindsAt(g.table, va) == {Trace} && va != 0 && orig(va + 4) != 0
    ensures Sound(pa, Trap(pa, g, va + 4).guest, orig)
  {
    var pc, h := va + 4, Trap(pa, g, va + 4).guest;
    Known(g.table, va);
    assert Follows(pa, va);
    assert Under(pa, g, pc) == orig(pc);
    var word := g.mem[pa(va) := Load(g.table, va)][pa(pc)];
    var r := Store(g.table, word, pc, Retrap);
    forall x: nat
      ensures pa(x) in h.mem && Under(pa, h, x) == orig(x)
    {
      assert Under(pa, g, x) == orig(x);
      Stored(g.table, word, pc, Retrap, x);
    }
    forall x: nat, k
      ensures k in KindsAt(g.table, x) ==> k in KindsAt(r.table, x)
      ensures k in KindsAt(r.table, x) ==> k in KindsAt(g.table, x) || (x == pc && k == Retrap)
    {
      StoredKinds(g.table, word, pc, Retrap, x, k);
    }
    TraceRetraps(g.table, r.table, va);
    Stored(g.table, word, pc, Retrap, pc);
  }

  lemma StoredKinds(t: seq<Slot>, word: Word, va: nat, kind: Kind, x: nat, k: Kind)
    requires Tidy(t) && va != 0 && (Load(t, va) == 0 ==> word != 0)
    ensures k in KindsAt(t, x) ==> k in KindsAt(Store(t, word, va, kind).table, x)
    ensures k in KindsAt(Store(t, word, va, kind).table, x) ==> k in KindsAt(t, x) || (x == va && k == kind)
  {
    Stored(t, word, va, kind, x);
  }

  /** From `t` to `u` no address loses a type, and only `at` may have gained one, a retrap. */
  ghost predicate Gains(t: seq<Slot>, u: seq<Slot>, at: nat) {
    && (forall x, k :: k in KindsAt(t, x) ==> k in KindsAt(u, x))
    && (forall x, k :: k in KindsAt(u, x) ==> k in KindsAt(t, x) || (x == at && k == Retrap))
  }

  lemma TraceRetraps(t: seq<Slot>, u: seq<Slot>, va: nat)
    requires RetrapsFollow(t) && Gains(t, u, va + 4) && Trace in KindsAt(t, va)
    ensures RetrapsFollow(u)
  {
    forall x: nat | Retrap in KindsAt(u, x)
      ensures RetrapOk(u, x)
    {
      assert x == va + 4 || RetrapOk(t, x);
    }
  }

  lemma RetrapKeeps(pa: nat -> int, g: Guest, va: nat, orig: nat -> Word)
    requires Sound(pa, g, orig) && Linear(pa) && KindsAt(g.table, va) == {Retrap} && va != 0
    ensures Sound(pa, Trap(pa, g, va + 4).guest, orig)
  {
    var h := Trap(pa, g, va + 4).guest;
    Known(g.table, va);
    assert RetrapOk(g.table, va);
    var u := Clean(g.table, va, {Retrap}).table;
    assert h == Guest(g.mem[pa(va) := Load(g.table, va)][pa(va) - 4 := HVC_TRAP], u);
    forall x: nat
      ensures pa(x) in h.mem && Under(pa, h, x) == orig(x)
    {
      RetrapWord(pa, g, va, orig, h.mem, u, x);
    }
    forall x: nat | Retrap in KindsAt(u, x)
      ensures RetrapOk(u, x)
    {
      RetrapRetraps(g.table, va, u, x);
    }
    Cleaned(g.table, va, {Retrap}, va);
  }

  /** Putting the retrap's word back and arming the word before keeps each of the guest's own words. */
  lemma RetrapWord(pa: nat -> int, g: Guest, va: nat, orig: nat -> Word, m: imap<int, Word>, u: seq<Slot>, x: nat)
    requires Tidy(g.table) && Original(pa, g, orig) && Linear(pa) && va != 0
    requires KindsAt(g.table, va) == {Retrap} && RetrapOk(g.table, va)
    requires u == Clean(g.table, va, {Retrap}).table && m == g.mem[pa(va) := Load(g.table, va)][pa(va) - 4 := HVC_TRAP]
    ensures pa(x) in m && Under(pa, Guest(m, u), x) == orig(x)
  {
    NoAddressZero(g.table);
    Known(g.table, va);
    Known(g.table, va - 4);
    assert Follows(pa, va - 4);
    assert Under(pa, g, x) == orig(x);
    Cleaned(g.table, va, {Retrap}, x);
  }

  lemma RetrapRetraps(t: seq<Slot>, va: nat, u: seq<Slot>, x: nat)
    requires Tidy(t) && RetrapsFollow(t) && KindsAt(t, va) == {Retrap} && va != 0
    requires u == Clean(t, va, {Retrap}).table && Retrap in KindsAt(u, x)
    ensures RetrapOk(u, x)
  {
    Cleaned(t, va, {Retrap}, x);
    assert RetrapOk(t, x);
    Cleaned(t, va, {Retrap}, x - 4);
  }

  // ---------------------------------------------------------------- cleaning everything

  /** Rows below `i` are free. */
  predicate FreeBelow(t: seq<Slot>, i: nat) {
    forall j :: 0 <= j < i && j < |t| ==> t[j] == FREE
  }

  lemma CleanLeavesFree(t: seq<Slot>, va: nat, kinds: set<Kind>, i: nat)
    requires Tidy(t) && FreeBelow(t, i)
    ensures FreeBelow(Clean(t, va, kinds).table, i)
  {
    if Find(t, va) < |t| && Find(t, va) < i {
      assert t[Find(t, va)] == FREE;
    }
  }

  lemma CleanGuestRow(pa: nat -> int, g: Guest, i: nat, orig: nat -> Word)
    requires Sound(pa, g, orig) && Linear(pa) && i < |g.table| && FreeBelow(g.table, i) && g.table[i].inst != 0
    ensures FreeBelow(CleanGuest(pa, g, g.table[i].va, {Trace, Retrap, Break}).table, i + 1)
  {
    var va, all := g.table[i].va, {Trace, Retrap, Break};
    FindRow(g.table, i);
    assert g.table[i].kinds - all == {} by {
      forall k | k in g.table[i].kinds
        ensures k in all
      {
        assert k == Trace || k == Retrap || k == Break;
      }
    }
    var m := CleanOne(pa, g, va, all);
    assert FreeBelow(m.table, i + 1);
    CleanOneKeeps(pa, g, va, all, orig);
    CleanLeavesFree(m.table, va + 4, {Retrap}, i + 1);
  }

  /** Cleaning everything empties the table and gives the guest its own memory back. */
  lemma {:induction false} CleanAllRestores(pa: nat -> int, g: Guest, i: nat, orig: nat -> Word)
    requires Sound(pa, g, orig) && Linear(pa) && FreeBelow(g.table, i) && i <= |g.table|
    ensures var h := CleanAll(pa, g, i);
      Sound(pa, h, orig) && |h.table| == |g.table| && FreeBelow(h.table, |h.table|)
    decreases |g.table| - i
  {
    if i < |g.table| {
      if g.table[i].inst == 0 {
        CleanAllRestores(pa, g, i + 1, orig);
      } else {
        CleanGuestRow(pa, g, i, orig);
        CleanGuestKeeps(pa, g, g.table[i].va, {Trace, Retrap, Break}, orig);
        CleanAllRestores(pa, CleanGuest(pa, g, g.table[i].va, {Trace, Retrap, Break}), i + 1, orig);
      }
    }
  }

  lemma EmptyTable(pa: nat -> int, g: Guest, orig: nat -> Word, va: nat)
    requires Sound(pa, g, orig) && FreeBelow(g.table, |g.table|)
    ensures Load(g.table, va) == 0 && pa(va) in g.mem && g.mem[pa(va)] == orig(va)
  {
    assert Under(pa, g, va) == orig(va);
  }

  // ---------------------------------------------------------------- every run

  datatype Event = Set(va: nat, kind: Kind) | Unset(va: nat, kinds: set<Kind>) | UnsetAll | Taken(pc: nat)

  /** Points are set at non-zero words only, by a caller that never asks for a retrap; a trap is taken after a word. */
  predicate Allowed(e: Event, orig: nat -> Word) {
    match e
    case Set(va, kind) => va != 0 && orig(va) != 0 && kind != Retrap
    case Taken(pc) => pc >= 4 && orig(pc) != 0
    case _ => true
  }

  function Step(pa: nat -> int, g: Guest, e: Event, orig: nat -> Word): Guest
    requires Allowed(e, orig)
  {
    match e
    case Set(va, kind) => if pa(va) in g.mem then Insert(pa, g, va, kind) else g
    case Unset(va, kinds) => CleanGuest(pa, g, va, kinds)
    case UnsetAll => CleanAll(pa, g, 0)
    case Taken(pc) => if pa(pc) in g.mem then Trap(pa, g, pc).guest else g
  }

  ghost predicate AllAllowed(events: seq<Event>, orig: nat -> Word) {
    forall i :: 0 <= i < |events| ==> Allowed(events[i], orig)
  }

  ghost function Run(pa: nat -> int, g: Guest, events: seq<Event>, orig: nat -> Word): Guest
    requires AllAllowed(events, orig)
  {
    if events == [] then g
    else Step(pa, Run(pa, g, events[..|events| - 1], orig), events[|events| - 1], orig)
  }

  /** Under every interleaving the guest's own words stay what they were,
      and a retrap stands only after a tracepoint. */
  lemma {:induction false} RunKeeps(pa: nat -> int, g: Guest, events: seq<Event>, orig: nat -> Word)
    requires Sound(pa, g, orig) && Linear(pa) && AllAllowed(events, orig)
    ensures Sound(pa, Run(pa, g, events, orig), orig)
  {
    if events != [] {
      var before := Run(pa, g, events[..|events| - 1], orig);
      RunKeeps(pa, g, events[..|events| - 1], orig);
      StepKeeps(pa, before, events[|events| - 1], orig);
    }
  }

  lemma StepKeeps(pa: nat -> int, g: Guest, e: Event, orig: nat -> Word)
    requires Sound(pa, g, orig) && Linear(pa) && Allowed(e, orig)
    ensures Sound(pa, Step(pa, g, e, orig), orig)
  {
    match e
    case Set(va, kind) =>
      InsertKeeps(pa, g, va, kind, orig);
    case Unset(va, kinds) =>
      CleanGuestKeeps(pa, g, va, kinds, orig);
    case UnsetAll =>
      CleanAllRestores(pa, g, 0, orig);
    case Taken(pc) =>
      TrapKeeps(pa, g, pc, orig);
  }

  /** Whatever happened before, cleaning everything leaves an empty table over the original memory. */
  lemma RunThenCleanAll(pa: nat -> int, g: Guest, events: seq<Event>, orig: nat -> Word, va: nat)
    requires Sound(pa, g, orig) && Linear(pa) && AllAllowed(events, orig)
    ensures var h := CleanAll(pa, Run(pa, g, events, orig), 0);
      FreeBelow(h.table, |h.table|) && pa(va) in h.mem && h.mem[pa(va)] == orig(va)
  {
    RunKeeps(pa, g, events, orig);
    CleanAllRestores(pa, Run(pa, g, events, orig), 0, orig);
    EmptyTable(pa, CleanAll(pa, Run(pa, g, events, orig), 0), orig, va);
  }

  // ---------------------------------------------------------------- no instruction is skipped

  /** Points agreed on beforehand: one type for each address, and no two of them at adjacent words. */
  predicate Apart(points: map<nat, Kind>) {
    forall va :: va in points ==> points[va] != Retrap && va + 4 !in points
  }

  /** What the table may hold under such an agreement. */
  predicate MayHold(points: map<nat, Kind>, va: nat, k: Kind) {
    if k == Retrap then va >= 4 && va - 4 in points && points[va - 4] == Trace else va in points && points[va] == k
  }

  ghost predicate Planned(t: seq<Slot>, points: map<nat, Kind>) {
    forall va: nat, k :: k in KindsAt(t, va) ==> MayHold(points, va, k)
  }

  ghost predicate AsPlanned(events: seq<Event>, points: map<nat, Kind>) {
    forall i :: 0 <= i < |events| && events[i].Set? ==> events[i].va in points && points[events[i].va] == events[i].kind
  }

  lemma InsertPlanned(pa: nat -> int, g: Guest, va: nat, kind: Kind, orig: nat -> Word, points: map<nat, Kind>)
    requires Sound(pa, g, orig) && va != 0 && orig(va) != 0 && kind != Retrap && Planned(g.table, points)
    requires va in points && points[va] == kind
    ensures pa(va) in g.mem && Planned(Insert(pa, g, va, kind).table, points)
  {
    assert Under(pa, g, va) == orig(va);
    forall x: nat, k | k in KindsAt(Insert(pa, g, va, kind).table, x)
      ensures MayHold(points, x, k)
    {
      StoredKinds(g.table, g.mem[pa(va)], va, kind, x, k);
    }
  }

  lemma DropPlanned(t: seq<Slot>, va: nat, kinds: set<Kind>, points: map<nat, Kind>)
    requires Tidy(t) && Planned(t, points)
    ensures Tidy(Drop(t, va, kinds)) && Planned(Drop(t, va, kinds), points)
  {
    forall x: nat, k | k in KindsAt(Drop(t, va, kinds), x)
      ensures MayHold(points, x, k)
    {
      DropKinds(t, va, kinds, x, k);
    }
    DropKinds(t, va, kinds, 0, Trace);
  }

  lemma CleanGuestPlanned(pa: nat -> int, g: Guest, va: nat, kinds: set<Kind>, points: map<nat, Kind>)
    requires Tidy(g.table) && Planned(g.table, points)
    ensures Tidy(CleanGuest(pa, g, va, kinds).table) && Planned(CleanGuest(pa, g, va, kinds).table, points)
  {
    DropPlanned(g.table, va, kinds, points);
    DropPlanned(Drop(g.table, va, kinds), va + 4, {Retrap}, points);
  }

  lemma {:induction false} CleanAllPlanned(pa: nat -> int, g: Guest, i: nat, points: map<nat, Kind>)
    requires Tidy(g.table) && Planned(g.table, points)
    ensures Planned(CleanAll(pa, g, i).table, points)
    decreases |g.table| - i
  {
    if i < |g.table| {
      if g.table[i].inst == 0 {
        CleanAllPlanned(pa, g, i + 1, points);
      } else {
        var h := CleanGuest(pa, g, g.table[i].va, {Trace, Retrap, Break});
        CleanGuestPlanned(pa, g, g.table[i].va, {Trace, Retrap, Break}, points);
        CleanAllPlanned(pa, h, i + 1, points);
      }
    }
  }

  lemma TrapPlanned(pa: nat -> int, g: Guest, pc: nat, orig: nat -> Word, points: map<nat, Kind>)
    requires Sound(pa, g, orig) && Linear(pa) && pc >= 4 && orig(pc) != 0 && Planned(g.table, points)
    ensures pa(pc) in g.mem && Planned(Trap(pa, g, pc).guest.table, points)
  {
    var va := pc - 4;
    NoAddressZero(g.table);
    assert Under(pa, g, pc) == orig(pc) && Follows(pa, va);
    TrapTable(pa, g, pc, Trap(pa, g, pc).guest.table, points);
  }

  lemma TrapTable(pa: nat -> int, g: Guest, pc: nat, u: seq<Slot>, points: map<nat, Kind>)
    requires Tidy(g.table) && Planned(g.table, points) && pc >= 4 && pa(pc) in g.mem && pa(pc) != pa(pc - 4)
    requires u == Trap(pa, g, pc).guest.table && (Load(g.table, pc) == 0 ==> g.mem[pa(pc)] != 0)
    ensures Planned(u, points) == true
  {
    var va := pc - 4;
    NoAddressZero(g.table);
    if KindsAt(g.table, va) == {Trace} {
      Known(g.table, va);
      TracePlanned(g.table, g.mem[pa(va) := Load(g.table, va)][pa(pc)], va, points);
    } else if KindsAt(g.table, va) == {Retrap} {
      Known(g.table, va);
      DropPlanned(g.table, va, {Retrap}, points);
    }
  }

  lemma TracePlanned(t: seq<Slot>, word: Word, va: nat, points: map<nat, Kind>)
    requires Tidy(t) && Planned(t, points) && Trace in KindsAt(t, va) && (Load(t, va + 4) == 0 ==> word != 0)
    ensures Planned(Store(t, word, va + 4, Retrap).table, points)
  {
    assert MayHold(points, va, Trace);
    forall x: nat, k | k in KindsAt(Store(t, word, va + 4, Retrap).table, x)
      ensures MayHold(points, x, k)
    {
      StoredKinds(t, word, va + 4, Retrap, x, k);
    }
  }

  lemma {:induction false} RunPlanned(pa: nat -> int, g: Guest, events: seq<Event>, orig: nat -> Word,
                                      points: map<nat, Kind>)
    requires Sound(pa, g, orig) && Linear(pa) && AllAllowed(events, orig)
    requires Planned(g.table, points) && AsPlanned(events, points)
    ensures Planned(Run(pa, g, events, orig).table, points)
  {
    if events != [] {
      var most, e := events[..|events| - 1], events[|events| - 1];
      var h := Run(pa, g, most, orig);
      RunPlanned(pa, g, most, orig, points);
      RunKeeps(pa, g, most, orig);
      match e
      case Set(va, kind) =>
        InsertPlanned(pa, h, va, kind, orig, points);
      case Unset(va, kinds) =>
        CleanGuestPlanned(pa, h, va, kinds, points);
      case UnsetAll =>
        CleanAllPlanned(pa, h, 0, points);
      case Taken(pc) =>
        TrapPlanned(pa, h, pc, orig, points);
    }
  }

  /** The trap of a planted HVC goes back to it exactly when its address has a single type; otherwise no handler takes
      it, and the guest goes on without its own instruction there. */
  lemma SkipsExactly(pa: nat -> int, g: Guest, va: nat, orig: nat -> Word)
    requires Sound(pa, g, orig) && Linear(pa) && pa(va) in g.mem && g.mem[pa(va)] == HVC_TRAP != orig(va)
    ensures pa(va + 4) in g.mem && KindsAt(g.table, va) != {}
    ensures Trap(pa, g, va + 4).pc == va <==> exists k :: KindsAt(g.table, va) == {k}
    ensures KindsAt(g.table, va) == {Trace} || KindsAt(g.table, va) == {Retrap} ==>
      var h := Trap(pa, g, va + 4).guest; pa(va) in h.mem && h.mem[pa(va)] == orig(va)
  {
    NoAddressZero(g.table);
    assert Under(pa, g, va) == orig(va) && Under(pa, g, va + 4) == orig(va + 4);
    Known(g.table, va);
    assert Follows(pa, va);
    if k :| KindsAt(g.table, va) == {k} {
      assert k == Trace || k == Retrap || k == Break;
    }
    if Trap(pa, g, va + 4).pc == va {
      var kinds := KindsAt(g.table, va);
      assert kinds == {Trace} || kinds == {Retrap} || kinds == {Break};
    }
  }

  /**
   * With points that are apart, in every run the trap of each planted HVC goes back to it: no instruction of the guest
   * is skipped, and unless a breakpoint stops it there the guest's own word is in place again.
   */
  lemma RunNeverSkips(pa: nat -> int, g: Guest, events: seq<Event>, orig: nat -> Word, points: map<nat, Kind>, va: nat)
    requires Sound(pa, g, orig) && Linear(pa) && AllAllowed(events, orig)
    requires Apart(points) && Planned(g.table, points) && AsPlanned(events, points)
    ensures var h := Run(pa, g, events, orig);
      && pa(va) in h.mem && pa(va + 4) in h.mem
      && (h.mem[pa(va)] == HVC_TRAP != orig(va) ==>
        var s := Trap(pa, h, va + 4);
        && s.pc == va
        && (KindsAt(h.table, va) != {Break} ==> pa(va) in s.guest.mem && s.guest.mem[pa(va)] == orig(va)))
  {
    var h := Run(pa, g, events, orig);
    RunKeeps(pa, g, events, orig);
    RunPlanned(pa, g, events, orig, points);
    assert Under(pa, h, va) == orig(va) && Under(pa, h, va + 4) == orig(va + 4);
    if h.mem[pa(va)] == HVC_TRAP != orig(va) {
      SkipsExactly(pa, h, va, orig);
      var k :| k in KindsAt(h.table, va);
      SingleKind(h.table, points, va, k);
    }
  }

  lemma SingleKind(t: seq<Slot>, points: map<nat, Kind>, va: nat, k: Kind)
    requires Apart(points) && Planned(t, points) && k in KindsAt(t, va)
    ensures KindsAt(t, va) == {k}
  {
    forall k' | k' in KindsAt(t, va)
      ensures k' == k
    {
      assert MayHold(points, va, k) && MayHold(points, va, k');
    }
  }

  // ---------------------------------------------------------------- a word of zero

  lemma ZeroCleanOne(pa: nat -> int, g: Guest, x: nat, kinds: set<Kind>, va: nat)
    requires Linear(pa) && pa(va) in g.mem && Load(g.table, va) == 0 && va != 0
    ensures var h := CleanOne(pa, g, x, kinds);
      Load(h.table, va) == 0 && pa(va) in h.mem && h.mem[pa(va)] == g.mem[pa(va)]
  {
    var h := CleanOne(pa, g, x, kinds);
    if Load(g.table, x) != 0 {
      var i, k := Find(g.table, x), Find(g.table, va);
      forall j | 0 <= j < k
        ensures h.table[j].va != va
      {
        assert g.table[j].va != va;
      }
      if k < |g.table| {
        assert k != i && h.table[k] == g.table[k];
      }
      assert Find(h.table, va) == k;
    }
  }

  lemma ZeroCleanGuest(pa: nat -> int, g: Guest, x: nat, kinds: set<Kind>, va: nat, h: Guest)
    requires Linear(pa) && pa(va) in g.mem && Load(g.table, va) == 0 && va != 0 && h == CleanGuest(pa, g, x, kinds)
    ensures Load(h.table, va) == 0 && pa(va) in h.mem && h.mem[pa(va)] == g.mem[pa(va)]
  {
    ZeroCleanOne(pa, g, x, kinds, va);
    ZeroCleanOne(pa, CleanOne(pa, g, x, kinds), x + 4, {Retrap}, va);
  }

  lemma {:induction false} ZeroCleanAll(pa: nat -> int, g: Guest, i: nat, va: nat)
    requires Linear(pa) && pa(va) in g.mem && Load(g.table, va) == 0 && va != 0
    ensures var h := CleanAll(pa, g, i);
      pa(va) in h.mem && h.mem[pa(va)] == g.mem[pa(va)]
    decreases |g.table| - i
  {
    if i < |g.table| {
      if g.table[i].inst == 0 {
        ZeroCleanAll(pa, g, i + 1, va);
      } else {
        var h := CleanGuest(pa, g, g.table[i].va, {Trace, Retrap, Break});
        ZeroCleanGuest(pa, g, g.table[i].va, {Trace, Retrap, Break}, va, h);
        ZeroCleanAll(pa, h, i + 1, va);
      }
    }
  }

  /** Setting a new point and cleaning everything gives the word back exactly when it was not zero. */
  lemma WordComesBack(pa: nat -> int, g: Guest, va: nat, kind: Kind, orig: nat -> Word)
    requires Sound(pa, g, orig) && Linear(pa) && va != 0 && kind != Retrap
    requires Load(g.table, va) == 0 && FindFree(g.table) < |g.table|
    ensures var h := CleanAll(pa, Insert(pa, g, va, kind), 0);
      pa(va) in h.mem && (h.mem[pa(va)] == orig(va) <==> orig(va) != 0)
  {
    var m := Insert(pa, g, va, kind);
    assert Under(pa, g, va) == orig(va);
    Known(g.table, va);
    if orig(va) != 0 {
      InsertKeeps(pa, g, va, kind, orig);
      CleanAllRestores(pa, m, 0, orig);
      EmptyTable(pa, CleanAll(pa, m, 0), orig, va);
    } else {
      var j := FindFree(g.table);
      assert m.table == g.table[j := Slot(0, va, {kind})];
      ZeroRow(g.table, j, va, kind);
      ZeroCleanAll(pa, m, 0, va);
    }
  }

  lemma ZeroRow(t: seq<Slot>, j: nat, va: nat, kind: Kind)
    requires j < |t| && Find(t, va) == |t|
    ensures Load(t[j := Slot(0, va, {kind})], va) == 0
  {
    var u := t[j := Slot(0, va, {kind})];
    assert u[j].va == va;
    assert forall i :: 0 <= i < j ==> u[i].va == t[i].va && t[i].va != va;
  }

  // ---------------------------------------------------------------- stepping over a tracepoint

  /** The trap at `va`, the guest's own instruction there, and the trap at the next word if one stands there. */
  function StepOver(pa: nat -> int, g: Guest, va: nat): Resumed
    requires pa(va + 4) in g.mem && pa(va + 8) in g.mem
  {
    var a := Trap(pa, g, va + 4);
    if a.guest.mem[pa(va + 4)] == HVC_TRAP then Trap(pa, a.guest, va + 8) else Resumed(a.guest, va + 4)
  }

  /** With a free row and no point at the next word, the cycle re-arms the tracepoint and changes nothing else. */
  lemma FullCycle(pa: nat -> int, g: Guest, va: nat, orig: nat -> Word)
    requires Sound(pa, g, orig) && Linear(pa) && KindsAt(g.table, va) == {Trace}
    requires orig(va + 4) != 0 && KindsAt(g.table, va + 4) == {} && FindFree(g.table) < |g.table|
    ensures StepOver(pa, g, va) == Resumed(Guest(g.mem[pa(va) := HVC_TRAP], g.table), va + 4)
  {
    NoAddressZero(g.table);
    assert Follows(pa, va);
    assert Under(pa, g, va + 4) == orig(va + 4);
    Known(g.table, va + 4);
    var u := Store(g.table, orig(va + 4), va + 4, Retrap).table;
    StoreThenClean(g.table, orig(va + 4), va + 4);
    FirstTrap(pa, g, va, orig(va + 4), u);
    assert Under(pa, g, va + 8) == orig(va + 8) && pa(va) != pa(va + 4);
    SecondTrap(pa, g, va, orig(va + 4), Load(g.table, va),
               Guest(g.mem[pa(va) := Load(g.table, va)][pa(va + 4) := HVC_TRAP], u));
  }

  lemma SecondTrap(pa: nat -> int, g: Guest, va: nat, word: Word, own: Word, a: Guest)
    requires KindsAt(a.table, va + 4) == {Retrap} && Load(a.table, va + 4) == word != 0
    requires Clean(a.table, va + 4, {Retrap}).table == g.table && Follows(pa, va) && pa(va) != pa(va + 4)
    requires pa(va + 4) in g.mem && g.mem[pa(va + 4)] == word && pa(va + 8) in a.mem
    requires a.mem == g.mem[pa(va) := own][pa(va + 4) := HVC_TRAP]
    ensures Trap(pa, a, va + 8) == Resumed(Guest(g.mem[pa(va) := HVC_TRAP], g.table), va + 4)
  {
    assert a.mem[pa(va + 4) := word][pa(va) := HVC_TRAP] == g.mem[pa(va) := HVC_TRAP];
  }

  lemma FirstTrap(pa: nat -> int, g: Guest, va: nat, word: Word, u: seq<Slot>)
    requires Tidy(g.table) && Linear(pa) && va != 0 && KindsAt(g.table, va) == {Trace} && KindsAt(g.table, va + 4) == {}
    requires pa(va + 4) in g.mem && g.mem[pa(va + 4)] == word != 0 && FindFree(g.table) < |g.table|
    requires u == Store(g.table, word, va + 4, Retrap).table
    ensures Trap(pa, g, va + 4) == Resumed(Guest(g.mem[pa(va) := Load(g.table, va)][pa(va + 4) := HVC_TRAP], u), va)
  {
    Known(g.table, va);
    Known(g.table, va + 4);
    assert Follows(pa, va);
  }

  lemma StoreThenClean(t: seq<Slot>, word: Word, va: nat)
    requires Tidy(t) && va != 0 && word != 0 && KindsAt(t, va) == {} && FindFree(t) < |t|
    ensures var u := Store(t, word, va, Retrap).table;
      Clean(u, va, {Retrap}).table == t && KindsAt(u, va) == {Retrap} && Load(u, va) == word
  {
    Known(t, va);
    Stored(t, word, va, Retrap, va);
    var j := FindFree(t);
    var u := Store(t, word, va, Retrap).table;
    assert t[j] == FREE;
    FindRow(u, j);
    assert u[j := FREE] == t;
  }

  /** The condition for re-arming: the next word has a retrap alone, armed, or no point at all and a row for one. */
  predicate Rearms(pa: nat -> int, g: Guest, va: nat)
    requires pa(va + 4) in g.mem
  {
    if KindsAt(g.table, va + 4) == {} then FindFree(g.table) < |g.table|
    else KindsAt(g.table, va + 4) == {Retrap} && g.mem[pa(va + 4)] == HVC_TRAP
  }

  /**
   * The cycle re-arms the tracepoint exactly under that condition. When another point stands armed at the next word,
   * no handler takes its trap: the guest goes on after it, without its own instruction there.
   */
  lemma StepOverExact(pa: nat -> int, g: Guest, va: nat, orig: nat -> Word)
    requires Sound(pa, g, orig) && Linear(pa) && KindsAt(g.table, va) == {Trace}
    requires orig(va) != HVC_TRAP && orig(va + 4) != HVC_TRAP && orig(va + 4) != 0
    ensures var s := StepOver(pa, g, va);
      && pa(va) in s.guest.mem && (s.guest.mem[pa(va)] == HVC_TRAP <==> Rearms(pa, g, va))
      && (KindsAt(g.table, va + 4) - {Retrap} != {} && g.mem[pa(va + 4)] == HVC_TRAP ==> s.pc == va + 8)
  {
    NoAddressZero(g.table);
    Known(g.table, va);
    Known(g.table, va + 4);
    assert Under(pa, g, va) == orig(va) && Under(pa, g, va + 4) == orig(va + 4);
    if KindsAt(g.table, va + 4) != {} {
      KnownNext(pa, g, va, orig);
    } else if FindFree(g.table) < |g.table| {
      FullCycle(pa, g, va, orig);
    }
  }

  lemma KnownNext(pa: nat -> int, g: Guest, va: nat, orig: nat -> Word)
    requires Sound(pa, g, orig) && Linear(pa) && KindsAt(g.table, va) == {Trace} && va != 0
    requires Load(g.table, va) == orig(va) != HVC_TRAP && Load(g.table, va + 4) == orig(va + 4) != 0
    ensures var s := StepOver(pa, g, va);
      && pa(va) in s.guest.mem
      && (s.guest.mem[pa(va)] == HVC_TRAP <==> KindsAt(g.table, va + 4) == {Retrap} && g.mem[pa(va + 4)] == HVC_TRAP)
      && (KindsAt(g.table, va + 4) - {Retrap} != {} && g.mem[pa(va + 4)] == HVC_TRAP ==> s.pc == va + 8)
  {
    var t := g.table;
    Known(t, va);
    Known(t, va + 4);
    assert Follows(pa, va);
    var m := g.mem[pa(va) := Load(t, va)];
    var u := Store(t, m[pa(va + 4)], va + 4, Retrap).table;
    Stored(t, m[pa(va + 4)], va + 4, Retrap, va + 4);
    var a := Trap(pa, g, va + 4);
    assert a == Resumed(Guest(m, u), va);
    var kinds := KindsAt(t, va + 4);
    assert KindsAt(u, va + 4) == kinds + {Retrap};
    if kinds - {Retrap} == {} {
      assert kinds == {Retrap};
      assert kinds + {Retrap} == {Retrap};
    } else {
      var k :| k in kinds - {Retrap};
      assert k in kinds + {Retrap} && Retrap in kinds + {Retrap};
    }
  }
}
