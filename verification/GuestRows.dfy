/** The interrupt state of every guest, and the ledger of physical interrupts over all of them. */
module GuestRows {
  import opened Word
  import opened ListRegister
  import opened VirqQueue

  /** The control registers GICH_HCR, GICH_APR and GICH_VMCR. */
  datatype Control = Control(hcr: word, apr: word, vmcr: word)

  datatype Status = Status(lr: seq<word>, control: Control, savedOnce: bool)

  /** The rows kept for one guest: slot tables, pending queue and saved interface. */
  datatype Guest = Guest(pirq: seq<word>, virq: seq<word>, queue: seq<Entry>, saved: Status)

  predicate Fits(g: Guest, registers: nat) {
    |g.pirq| == |g.virq| == SLOTS && |g.queue| == ENTRIES && |g.saved.lr| == registers
  }

  ghost predicate Layout(lr: seq<word>, current: nat, rows: seq<Guest>) {
    current < |rows| && |lr| <= 32 && forall g :: 0 <= g < |rows| ==> Fits(rows[g], |lr|)
  }

  /** The registers and tables of guest `g`: the live registers while it runs, the saved ones otherwise. */
  function ViewOf(lr: seq<word>, current: nat, rows: seq<Guest>, g: nat): Slots
    requires g < |rows|
  {
    Slots(if g == current then lr else rows[g].saved.lr, rows[g].pirq, rows[g].virq)
  }

  function Dues(rows: seq<Guest>): seq<multiset<word>> {
    seq(|rows|, g requires 0 <= g < |rows| => Owed(rows[g].pirq, rows[g].queue))
  }

  ghost predicate Sound(lr: seq<word>, current: nat, rows: seq<Guest>) {
    forall g :: 0 <= g < |rows| ==> Coherent(ViewOf(lr, current, rows, g))
  }

  /** The ledger: what was accepted is what was deactivated and what is still owed. The owed part is named by a
      predicate, so that the equation is unfolded only where `BooksBalance` is called. */
  ghost predicate Books(accepted: multiset<word>, deactivated: multiset<word>, dues: seq<multiset<word>>) {
    forall owed :: SumsTo(dues, owed) ==> accepted == deactivated + owed
  }

  lemma BooksBalance(accepted: multiset<word>, deactivated: multiset<word>, dues: seq<multiset<word>>)
    ensures Books(accepted, deactivated, dues) <==> accepted == deactivated + Total(dues)
  {
    assert SumsTo(dues, Total(dues));
  }

  /**
   * Registers and tables agree for every guest, and what was accepted is what was deactivated and what is still owed.
   * Lemmas about it compare it with `true` where their callers need it in one piece.
   */
  ghost predicate Consistent(lr: seq<word>, current: nat, rows: seq<Guest>,
                             accepted: multiset<word>, deactivated: multiset<word>) {
    && Layout(lr, current, rows)
    && Sound(lr, current, rows)
    && Books(accepted, deactivated, Dues(rows))
  }

  // ---------------------------------------------------------------- one guest's rows change

  lemma DuesUpdate(rows: seq<Guest>, g: nat, row: Guest)
    requires g < |rows|
    ensures Total(Dues(rows[g := row])) + Owed(rows[g].pirq, rows[g].queue) ==
      Total(Dues(rows)) + Owed(row.pirq, row.queue)
  {
    assert Dues(rows[g := row]) == Dues(rows)[g := Owed(row.pirq, row.queue)];
    TotalUpdate(Dues(rows), g, Owed(row.pirq, row.queue));
  }

  /** The ledger still balances when a guest takes on `more` and settles `ended`. */
  lemma Balance(rows: seq<Guest>, g: nat, row: Guest, accepted: multiset<word>, settled: multiset<word>,
                more: multiset<word>, ended: multiset<word>)
    requires g < |rows| && Books(accepted, settled, Dues(rows))
    requires Owed(row.pirq, row.queue) + ended == Owed(rows[g].pirq, rows[g].queue) + more
    ensures Books(accepted + more, settled + ended, Dues(rows[g := row])) == true
  {
    BooksBalance(accepted, settled, Dues(rows));
    BooksBalance(accepted + more, settled + ended, Dues(rows[g := row]));
    DuesUpdate(rows, g, row);
    Ledger(Total(Dues(rows)), Total(Dues(rows[g := row])), Owed(rows[g].pirq, rows[g].queue), Owed(row.pirq, row.queue),
           settled, more, ended);
  }

  lemma SoundUpdate(lr: seq<word>, current: nat, rows: seq<Guest>, row: Guest, u: Slots)
    requires Layout(lr, current, rows) && Sound(lr, current, rows) && Coherent(u)
    requires Fits(row, |lr|) && |u.lr| == |lr| && row.pirq == u.pirq && row.virq == u.virq
    ensures Layout(u.lr, current, rows[current := row]) && Sound(u.lr, current, rows[current := row])
  {
    var after := rows[current := row];
    forall g | 0 <= g < |rows|
      ensures Coherent(ViewOf(u.lr, current, after, g))
    {
      assert Coherent(ViewOf(lr, current, rows, g));
    }
  }

  // ---------------------------------------------------------------- what each operation does to a guest's rows

  /** The row after its registers and tables became `u`. */
  function Retabled(row: Guest, u: Slots): Guest {
    row.(pirq := u.pirq, virq := u.virq)
  }

  /** The row after a flush. */
  function Drained(row: Guest, r: Flushed): Guest {
    row.(pirq := r.slots.pirq, virq := r.slots.virq, queue := r.queue)
  }

  /** The registers and tables after an injection for the running guest. */
  function Injected(v: Slots, e: Entry, priority: word, source: word): (u: Slots)
    requires Shaped(v)
    ensures Shaped(u) && |u.lr| == |v.lr|
  {
    if FreeSlot(v.lr) < |v.lr| then Placed(v, FreeSlot(v.lr), e, priority, source) else v
  }

  /** An injection for another guest: refused when a slot already holds the interrupt or the queue is full. */
  predicate Refused(row: Guest, e: Entry) {
    e.virq in row.virq || FreeRow(row.queue) == |row.queue|
  }

  function Queued(row: Guest, e: Entry): Guest {
    if Refused(row, e) then row else row.(queue := row.queue[FreeRow(row.queue) := e])
  }

  // ---------------------------------------------------------------- what a guest finds

  /**
   * What the running guest finds after an injection: nothing changed if no register was empty; otherwise the lowest
   * empty one holds number `virq`, pending (bit 28), with maintenance asked for at its end (bit 19), the source in bits
   * 10 to 12, and in bits 23 to 27 the priority: 0x14 for a hardware interrupt and 0 for a software interrupt. The
   * tables remember the number there, and for a hardware interrupt the physical number.
   */
  predicate Delivered(lr: seq<word>, row: Guest, lr': seq<word>, row': Guest,
                      virq: word, pirq: word, hw: bool, source: word)
  {
    var s := FreeSlot(lr);
    if s == |lr| then lr' == lr && row' == row
    else
      && s < |row.virq| && s < |row.pirq|
      && lr' == lr[s := (if hw then 0x1a08_0000 else 0x1008_0000) | ((source & 0x7) << 10) | (virq & 0x3ff)]
      && row' == row.(virq := row.virq[s := virq], pirq := if hw then row.pirq[s := pirq] else row.pirq)
  }

  /** What is kept for a guest that does not run: the interrupt in the first invalid row of its queue, unless a slot
      remembers the number already or every row is valid. */
  predicate KeptFor(row: Guest, row': Guest, virq: word, pirq: word, hw: bool) {
    var i := FreeRow(row.queue);
    if virq in row.virq || i == |row.queue| then row' == row
    else row' == row.(queue := row.queue[i := Entry(pirq, virq, hw, true)])
  }

  lemma ComposedBits(virq: word, priority: word, source: word, w: word)
    requires w == Compose(virq, STATE_PENDING, priority, 0, source, 1)
    ensures priority == PRIORITY_DEFAULT ==> w == 0x1a08_0000 | ((source & 0x7) << 10) | (virq & 0x3ff)
    ensures priority == 0 ==> w == 0x1008_0000 | ((source & 0x7) << 10) | (virq & 0x3ff)
  {
  }

  lemma RegisterDelivers(lr: seq<word>, row: Guest, s: nat, w: word, u: Slots,
                         virq: word, pirq: word, hw: bool, source: word)
    requires |lr| <= |row.virq| == |row.pirq| && s == FreeSlot(lr) && s < |lr|
    requires w == (if hw then 0x1a08_0000 else 0x1008_0000) | ((source & 0x7) << 10) | (virq & 0x3ff)
    requires u == Slots(lr[s := w], if hw then row.pirq[s := pirq] else row.pirq, row.virq[s := virq])
    ensures Delivered(lr, row, u.lr, Retabled(row, u), virq, pirq, hw, source) == true
  {
  }

  lemma InjectedDelivers(lr: seq<word>, row: Guest, u: Slots, virq: word, pirq: word, hw: bool, source: word)
    requires Fits(row, |row.saved.lr|) && |lr| <= 32
    requires u == Injected(Slots(lr, row.pirq, row.virq), Entry(pirq, virq, hw, true),
                           if hw then PRIORITY_DEFAULT else 0, source)
    ensures Delivered(lr, row, u.lr, Retabled(row, u), virq, pirq, hw, source) == true
  {
    var s, priority := FreeSlot(lr), if hw then PRIORITY_DEFAULT else 0;
    if s < |lr| {
      var w := Compose(virq, STATE_PENDING, priority, 0, source, 1);
      ComposedBits(virq, priority, source, w);
      RegisterDelivers(lr, row, s, w, u, virq, pirq, hw, source);
    }
  }

  /** One guest offered a physical interrupt: reached in the way it is, unless it has not enabled it. */
  predicate Reached(running: bool, lr: seq<word>, row: Guest, lr': seq<word>, row': Guest,
                    virq: word, pirq: word, cpu: word)
  {
    if virq == 0xffff_ffff then row' == row && (running ==> lr' == lr)
    else if running then Delivered(lr, row, lr', row', virq, pirq, true, cpu)
    else KeptFor(row, row', virq, pirq, true)
  }

  /** The interrupt has been offered to the guests below `i` and to no other. */
  ghost predicate Spread(lr: seq<word>, rows: seq<Guest>, current: nat, virqs: seq<word>, pirq: word, cpu: word, i: nat,
                         lr': seq<word>, rows': seq<Guest>)
  {
    && |virqs| == |rows| == |rows'| && (i <= current ==> lr' == lr)
    && forall g :: 0 <= g < |rows| ==> Offered(g < i, g == current, lr, rows[g], lr', rows'[g], virqs[g], pirq, cpu)
  }

  predicate Offered(done: bool, running: bool, lr: seq<word>, row: Guest, lr': seq<word>, row': Guest,
                    virq: word, pirq: word, cpu: word)
  {
    if done then Reached(running, lr, row, lr', row', virq, pirq, cpu) else row' == row
  }

  lemma SpreadNone(lr: seq<word>, rows: seq<Guest>, current: nat, virqs: seq<word>, pirq: word, cpu: word)
    requires |virqs| == |rows|
    ensures Spread(lr, rows, current, virqs, pirq, cpu, 0, lr, rows) == true
  {
  }

  /** Every guest has been offered the interrupt. */
  ghost predicate AllReached(lr: seq<word>, rows: seq<Guest>, current: nat, virqs: seq<word>, pirq: word, cpu: word,
                             lr': seq<word>, rows': seq<Guest>)
  {
    && |virqs| == |rows| == |rows'|
    && forall g :: 0 <= g < |rows| ==> Reached(g == current, lr, rows[g], lr', rows'[g], virqs[g], pirq, cpu)
  }

  lemma SpreadAll(lr: seq<word>, rows: seq<Guest>, current: nat, virqs: seq<word>, pirq: word, cpu: word,
                  lr': seq<word>, rows': seq<Guest>)
    requires Spread(lr, rows, current, virqs, pirq, cpu, |virqs|, lr', rows') == true
    ensures AllReached(lr, rows, current, virqs, pirq, cpu, lr', rows') == true
  {
    forall g | 0 <= g < |rows|
      ensures Reached(g == current, lr, rows[g], lr', rows'[g], virqs[g], pirq, cpu)
    {
      assert Offered(g < |virqs|, g == current, lr, rows[g], lr', rows'[g], virqs[g], pirq, cpu);
    }
  }

  lemma SpreadStep(lr: seq<word>, rows: seq<Guest>, current: nat, virqs: seq<word>, pirq: word, cpu: word, i: nat,
                   lr1: seq<word>, rows1: seq<Guest>, lr2: seq<word>, rows2: seq<Guest>)
    requires Spread(lr, rows, current, virqs, pirq, cpu, i, lr1, rows1) && i < |rows|
    requires i != current ==> lr2 == lr1
    requires |rows2| == |rows1| && rows2 == rows1[i := rows2[i]]
    requires Reached(i == current, lr1, rows1[i], lr2, rows2[i], virqs[i], pirq, cpu) == true
    ensures Spread(lr, rows, current, virqs, pirq, cpu, i + 1, lr2, rows2) == true
  {
    forall g | 0 <= g < |rows|
      ensures Offered(g < i + 1, g == current, lr, rows[g], lr2, rows2[g], virqs[g], pirq, cpu)
    {
      assert Offered(g < i, g == current, lr, rows[g], lr1, rows1[g], virqs[g], pirq, cpu);
    }
  }

  // ---------------------------------------------------------------- the ledger after each operation

  lemma InjectKeeps(lr: seq<word>, current: nat, rows: seq<Guest>,
                    accepted: multiset<word>, deactivated: multiset<word>,
                    slot: nat, e: Entry, priority: word, source: word)
    requires Consistent(lr, current, rows, accepted, deactivated)
    requires slot < |lr| && Empty(lr[slot]) && e.valid
    ensures var u := Placed(ViewOf(lr, current, rows, current), slot, e, priority, source);
      Consistent(u.lr, current, rows[current := Retabled(rows[current], u)], accepted + EntryOwes(e), deactivated)
  {
    var v := ViewOf(lr, current, rows, current);
    var u := Placed(v, slot, e, priority, source);
    PlacedCoherent(v, slot, e, priority, source);
    InjectOwes(v, slot, rows[current].queue, e, priority, source);
    SoundUpdate(lr, current, rows, Retabled(rows[current], u), u);
    var o := Owed(u.pirq, rows[current].queue);
    assert o + multiset{} == o;
    Balance(rows, current, Retabled(rows[current], u), accepted, deactivated, EntryOwes(e), multiset{});
    assert deactivated + multiset{} == deactivated;
  }

  /** What an injection for the running guest adds to the accepted interrupts. */
  function Taken(lr: seq<word>, e: Entry): multiset<word> {
    if FreeSlot(lr) < |lr| then EntryOwes(e) else multiset{}
  }

  /** An injection for the running guest, accepted or not. */
  lemma InjectedKeeps(lr: seq<word>, current: nat, rows: seq<Guest>,
                      accepted: multiset<word>, deactivated: multiset<word>,
                      e: Entry, priority: word, source: word, lr': seq<word>, rows': seq<Guest>)
    requires Consistent(lr, current, rows, accepted, deactivated) == true && e.valid
    requires var u := Injected(ViewOf(lr, current, rows, current), e, priority, source);
      lr' == u.lr && rows' == rows[current := Retabled(rows[current], u)]
    ensures Consistent(lr', current, rows', accepted + Taken(lr, e), deactivated) == true
  {
    if FreeSlot(lr) < |lr| {
      InjectKeeps(lr, current, rows, accepted, deactivated, FreeSlot(lr), e, priority, source);
    } else {
      assert rows' == rows;
      assert accepted + multiset{} == accepted;
    }
  }

  /** Queueing changes no register and no slot table. */
  lemma QueueSound(lr: seq<word>, current: nat, rows: seq<Guest>, g: nat, row: Guest)
    requires Layout(lr, current, rows) && Sound(lr, current, rows) && g < |rows| && |row.queue| == |rows[g].queue|
    requires row == rows[g].(queue := row.queue)
    ensures Layout(lr, current, rows[g := row]) && Sound(lr, current, rows[g := row])
  {
    var after := rows[g := row];
    forall h | 0 <= h < |rows|
      ensures Coherent(ViewOf(lr, current, after, h))
    {
      assert ViewOf(lr, current, after, h) == ViewOf(lr, current, rows, h);
    }
  }

  lemma EnqueueKeeps(lr: seq<word>, current: nat, rows: seq<Guest>,
                     accepted: multiset<word>, deactivated: multiset<word>,
                     g: nat, i: nat, e: Entry)
    requires Consistent(lr, current, rows, accepted, deactivated)
    requires g < |rows| && i < |rows[g].queue| && !rows[g].queue[i].valid
    ensures Consistent(lr, current, rows[g := rows[g].(queue := rows[g].queue[i := e])],
                       accepted + EntryOwes(e), deactivated)
  {
    var row := rows[g].(queue := rows[g].queue[i := e]);
    QueueSound(lr, current, rows, g, row);
    EnqueueOwes(row.pirq, rows[g].queue, i, e);
    var o := Owed(row.pirq, row.queue);
    assert o + multiset{} == o;
    Balance(rows, g, row, accepted, deactivated, EntryOwes(e), multiset{});
    assert deactivated + multiset{} == deactivated;
  }

  lemma FlushConsistent(lr: seq<word>, current: nat, rows: seq<Guest>,
                        accepted: multiset<word>, deactivated: multiset<word>,
                        r: Flushed, cpu: word)
    requires Consistent(lr, current, rows, accepted, deactivated) == true
    requires r == Flush(ViewOf(lr, current, rows, current), rows[current].queue, 0, cpu)
    ensures Consistent(r.slots.lr, current, rows[current := Drained(rows[current], r)], accepted, deactivated) == true
  {
    var v := ViewOf(lr, current, rows, current);
    FlushKeeps(v, rows[current].queue, 0, cpu);
    SoundUpdate(lr, current, rows, Drained(rows[current], r), r.slots);
    Balance(rows, current, Drained(rows[current], r), accepted, deactivated, multiset{}, multiset{});
    assert deactivated + multiset{} == deactivated && accepted + multiset{} == accepted;
  }

  lemma MaintenanceKeeps(lr: seq<word>, current: nat, rows: seq<Guest>,
                         accepted: multiset<word>, deactivated: multiset<word>,
                         v: Slots, u: Slots)
    requires Consistent(lr, current, rows, accepted, deactivated) == true
    requires v == ViewOf(lr, current, rows, current) && u == Maintained(v, 0)
    ensures Consistent(u.lr, current, rows[current := Retabled(rows[current], u)],
                       accepted, deactivated + multiset(Ends(v, 0))) == true
  {
    MaintainedKeeps(v, 0);
    EndsOwes(v, 0);
    MaintenanceOwes(v, u, rows[current].queue);
    SoundUpdate(lr, current, rows, Retabled(rows[current], u), u);
    var o := Owed(v.pirq, rows[current].queue);
    assert o + multiset{} == o;
    Balance(rows, current, Retabled(rows[current], u), accepted, deactivated, multiset{}, multiset(Ends(v, 0)));
    assert accepted + multiset{} == accepted;
  }

  lemma MaintenanceOwes(v: Slots, u: Slots, q: seq<Entry>)
    requires Shaped(v) && u == Maintained(v, 0) && Settles(v.pirq, u.pirq, Ends(v, 0))
    ensures Owed(u.pirq, q) + multiset(Ends(v, 0)) == Owed(v.pirq, q)
  {
    SettlesMeans(v.pirq, u.pirq, Ends(v, 0));
    assert Total(QueueParts(q)) + (Total(SlotParts(u.pirq)) + multiset(Ends(v, 0)))
        == (Total(QueueParts(q)) + Total(SlotParts(u.pirq))) + multiset(Ends(v, 0));
  }

  lemma GuestMoveKeeps(lr: seq<word>, current: nat, rows: seq<Guest>,
                       accepted: multiset<word>, deactivated: multiset<word>,
                       s: nat, w: word)
    requires Consistent(lr, current, rows, accepted, deactivated)
    requires s < |lr| && State(lr[s]) != STATE_INACTIVE && (w == Acked(lr[s]) || w == Ended(lr[s]))
    ensures Consistent(lr[s := w], current, rows, accepted, deactivated)
    ensures w == Ended(lr[s]) ==> EoiPending(w)
  {
    var v := ViewOf(lr, current, rows, current);
    GuestKeeps(v, s, w);
    SoundUpdate(lr, current, rows, rows[current], Slots(lr[s := w], v.pirq, v.virq));
    assert rows[current := rows[current]] == rows;
  }

  /** Once the running guest's registers are saved, any guest may be loaded. */
  lemma SwitchKeeps(lr: seq<word>, current: nat, rows: seq<Guest>,
                    accepted: multiset<word>, deactivated: multiset<word>, next: nat)
    requires Consistent(lr, current, rows, accepted, deactivated) == true
    requires next < |rows| && rows[current].saved.lr == lr
    ensures Consistent(rows[next].saved.lr, next, rows, accepted, deactivated) == true
  {
    forall h | 0 <= h < |rows|
      ensures Coherent(ViewOf(rows[next].saved.lr, next, rows, h))
    {
      assert ViewOf(rows[next].saved.lr, next, rows, h) == ViewOf(lr, current, rows, h);
    }
  }

  /** The saved copy of the running guest's registers does not matter. */
  lemma SaveKeeps(lr: seq<word>, current: nat, rows: seq<Guest>,
                  accepted: multiset<word>, deactivated: multiset<word>, s: Status)
    requires Consistent(lr, current, rows, accepted, deactivated) && |s.lr| == |lr|
    ensures Consistent(lr, current, rows[current := rows[current].(saved := s)], accepted, deactivated)
  {
    var after := rows[current := rows[current].(saved := s)];
    assert Dues(after) == Dues(rows);
    SavedSound(lr, current, rows, after, s);
  }

  lemma SavedSound(lr: seq<word>, current: nat, rows: seq<Guest>, after: seq<Guest>, s: Status)
    requires Layout(lr, current, rows) && Sound(lr, current, rows) && |s.lr| == |lr|
    requires after == rows[current := rows[current].(saved := s)]
    ensures Layout(lr, current, after) && Sound(lr, current, after)
  {
    forall h | 0 <= h < |rows|
      ensures Coherent(ViewOf(lr, current, after, h))
    {
      assert ViewOf(lr, current, after, h) == ViewOf(lr, current, rows, h);
    }
  }

  // ---------------------------------------------------------------- the initial state

  /** A guest with nothing pending. */
  function Fresh(registers: nat): Guest {
    Guest(seq(SLOTS, s => INVALID), seq(SLOTS, s => INVALID), seq(ENTRIES, i => Entry(0, 0, false, false)),
          Status(seq(registers, s => 0 as word), Control(0, 0, 0), false))
  }

  lemma FreshConsistent(guests: nat, registers: nat)
    requires guests > 0 && registers <= 32
    ensures Consistent(seq(registers, s => 0 as word), 0, seq(guests, g => Fresh(registers)), multiset{}, multiset{})
  {
    var rows := seq(guests, g => Fresh(registers));
    var f := Fresh(registers);
    TotalNone(QueueParts(f.queue));
    TotalNone(SlotParts(f.pirq));
    assert Owed(f.pirq, f.queue) == multiset{};
    TotalNone(Dues(rows));
    BooksBalance(multiset{}, multiset{}, Dues(rows));
  }

  lemma {:induction false} TotalNone(parts: seq<multiset<word>>)
    requires forall i :: 0 <= i < |parts| ==> parts[i] == multiset{}
    ensures Total(parts) == multiset{}
  {
    if parts != [] {
      TotalNone(parts[..|parts| - 1]);
    }
  }

  // ---------------------------------------------------------------- nothing lost, nothing settled twice

  ghost predicate InSlots(pirq: seq<word>, p: word) {
    p != INVALID && exists s :: 0 <= s < |pirq| && pirq[s] == p
  }

  ghost predicate InQueue(q: seq<Entry>, p: word) {
    p != INVALID && exists i :: 0 <= i < |q| && q[i].valid && q[i].hw && q[i].pirq == p
  }

  /** Guest `row` holds physical interrupt `p`, in a register or in its queue. */
  ghost predicate Holds(row: Guest, p: word) {
    InSlots(row.pirq, p) || InQueue(row.queue, p)
  }

  lemma {:induction false} TotalHas(parts: seq<multiset<word>>, i: nat, p: word)
    requires i < |parts| && p in parts[i]
    ensures p in Total(parts)
  {
    if i < |parts| - 1 {
      TotalHas(parts[..|parts| - 1], i, p);
    }
  }

  lemma {:induction false} TotalFrom(parts: seq<multiset<word>>, p: word) returns (i: nat)
    requires p in Total(parts)
    ensures i < |parts| && p in parts[i]
  {
    i := |parts| - 1;
    if p !in parts[i] {
      i := TotalFrom(parts[..|parts| - 1], p);
    }
  }

  lemma SlotsOwe(pirq: seq<word>, p: word)
    ensures p in Total(SlotParts(pirq)) <==> InSlots(pirq, p)
  {
    if p in Total(SlotParts(pirq)) {
      var s := TotalFrom(SlotParts(pirq), p);
      assert p in One(pirq[s]);
    }
    if InSlots(pirq, p) {
      var s :| 0 <= s < |pirq| && pirq[s] == p;
      assert SlotParts(pirq)[s] == multiset{p};
      TotalHas(SlotParts(pirq), s, p);
    }
  }

  lemma QueueOwes(q: seq<Entry>, p: word)
    ensures p in Total(QueueParts(q)) <==> InQueue(q, p)
  {
    if p in Total(QueueParts(q)) {
      var i := TotalFrom(QueueParts(q), p);
      assert p in EntryOwes(q[i]);
    }
    if InQueue(q, p) {
      var i :| 0 <= i < |q| && q[i].valid && q[i].hw && q[i].pirq == p;
      assert QueueParts(q)[i] == multiset{p};
      TotalHas(QueueParts(q), i, p);
    }
  }

  lemma OwedMeansHeld(row: Guest, p: word)
    ensures p in Owed(row.pirq, row.queue) <==> Holds(row, p)
  {
    SlotsOwe(row.pirq, p);
    QueueOwes(row.queue, p);
  }

  ghost predicate HeldBySome(rows: seq<Guest>, p: word) {
    exists g :: 0 <= g < |rows| && Holds(rows[g], p)
  }

  /** A physical interrupt still awaits deactivation exactly while some guest holds it. */
  lemma OutstandingIsHeld(lr: seq<word>, current: nat, rows: seq<Guest>,
                          accepted: multiset<word>, deactivated: multiset<word>, p: word)
    requires Consistent(lr, current, rows, accepted, deactivated)
    ensures deactivated <= accepted
    ensures p in accepted - deactivated <==> HeldBySome(rows, p)
  {
    HeldIsOwed(rows, p);
    BooksBalance(accepted, deactivated, Dues(rows));
    assert (deactivated + Total(Dues(rows))) - deactivated == Total(Dues(rows));
  }

  lemma HeldIsOwed(rows: seq<Guest>, p: word)
    ensures p in Total(Dues(rows)) <==> HeldBySome(rows, p)
  {
    if p in Total(Dues(rows)) {
      var g := TotalFrom(Dues(rows), p);
      OwedMeansHeld(rows[g], p);
    }
    if g :| 0 <= g < |rows| && Holds(rows[g], p) {
      OwedMeansHeld(rows[g], p);
      assert p in Dues(rows)[g];
      TotalHas(Dues(rows), g, p);
    }
  }

  // ---------------------------------------------------------------- a switch

  const HCR_ENABLE: word := 1

  /** The live interface and the rows, after a guest was loaded. */
  datatype Resumed = Resumed(lr: seq<word>, control: Control, rows: seq<Guest>)

  /** Guest `g` loaded from its status, its queue flushed and the interface enabled. */
  function Resume(rows: seq<Guest>, g: nat, cpu: word): Resumed
    requires g < |rows| && |rows[g].saved.lr| <= 32 && |rows[g].pirq| == |rows[g].virq| == SLOTS
  {
    var r := Flush(Slots(rows[g].saved.lr, rows[g].pirq, rows[g].virq), rows[g].queue, 0, cpu);
    var c := rows[g].saved.control;
    Resumed(r.slots.lr, c.(hcr := c.hcr | HCR_ENABLE), rows[g := Drained(rows[g], r)])
  }

  lemma ResumeMade(rows: seq<Guest>, g: nat, cpu: word, lr: seq<word>, v: Slots, r: Flushed, made: Resumed)
    requires g < |rows| && |rows[g].saved.lr| <= 32 && |rows[g].pirq| == |rows[g].virq| == SLOTS
    requires lr == rows[g].saved.lr && v == ViewOf(lr, g, rows, g) && r == Flush(v, rows[g].queue, 0, cpu)
    requires made.lr == r.slots.lr && made.rows == rows[g := Drained(rows[g], r)]
    requires var c := rows[g].saved.control; made.control == c.(hcr := c.hcr | HCR_ENABLE)
    ensures made == Resume(rows, g, cpu)
  {
  }

  /** The rows with the live interface saved in the status of the running guest. */
  function Saved(lr: seq<word>, control: Control, current: nat, rows: seq<Guest>): seq<Guest>
    requires current < |rows|
  {
    rows[current := rows[current].(saved := Status(lr, control, true))]
  }

  /** Every guest's rows but those of the two that are switched are kept. */
  predicate OthersKept(rows: seq<Guest>, rows': seq<Guest>, current: nat, next: nat) {
    |rows'| == |rows| && forall g :: 0 <= g < |rows| && g != current && g != next ==> rows'[g] == rows[g]
  }

  /** The guest that stops keeps its tables and queue, and its status the live registers. */
  predicate Left(row: Guest, row': Guest, lr: seq<word>, control: Control) {
    row' == row.(saved := Status(lr, control, true))
  }

  /** The guest that runs next has its registers back and its queue flushed into the empty ones; bit 0 of GICH_HCR is
      set, and the other control registers are its own. */
  ghost predicate Arrived(row: Guest, row': Guest, lr': seq<word>, control': Control, cpu: word) {
    && Delivery(Slots(row.saved.lr, row.pirq, row.virq), row.queue,
                Flushed(Slots(lr', row'.pirq, row'.virq), row'.queue), cpu)
    && row'.saved == row.saved && control' == row.saved.control.(hcr := row.saved.control.hcr | 0x1)
  }

  /** A switch by what it leaves; a guest switched to itself leaves and arrives. */
  ghost predicate Exchanged(lr: seq<word>, control: Control, current: nat, rows: seq<Guest>, next: nat, cpu: word,
                            s: Resumed)
  {
    && current < |rows| && next < |rows| && OthersKept(rows, s.rows, current, next)
    && (next != current ==>
          Left(rows[current], s.rows[current], lr, control) && Arrived(rows[next], s.rows[next], s.lr, s.control, cpu))
    && (next == current ==>
          Arrived(rows[current].(saved := Status(lr, control, true)), s.rows[current], s.lr, s.control, cpu))
  }

  lemma SwitchedExchanges(lr: seq<word>, control: Control, current: nat, rows: seq<Guest>, next: nat, cpu: word,
                          s: Resumed)
    requires Layout(lr, current, rows) && Sound(lr, current, rows) && next < |rows|
    requires s == Switched(lr, control, current, rows, next, cpu)
    ensures Exchanged(lr, control, current, rows, next, cpu, s) == true
  {
    var row := Saved(lr, control, current, rows)[next];
    assert Fits(rows[next], |lr|);
    var v := Slots(row.saved.lr, row.pirq, row.virq);
    assert v == ViewOf(lr, current, rows, next);
    FlushDelivers(v, row.queue, cpu, Flush(v, row.queue, 0, cpu));
    assert Arrived(row, s.rows[next], s.lr, s.control, cpu) == true;
  }

  /** A switch: the live interface saved, and guest `next` resumed. */
  ghost function Switched(lr: seq<word>, control: Control, current: nat, rows: seq<Guest>,
                          next: nat, cpu: word): Resumed
    requires Layout(lr, current, rows) && next < |rows|
  {
    assert Fits(rows[next], |lr|);
    assert Fits(rows[current], |lr|);
    Resume(Saved(lr, control, current, rows), next, cpu)
  }
}
