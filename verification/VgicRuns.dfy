/** Runs of the virtual interrupt interface over all guests, and what each guest sees of them. */
module VgicRuns {
  import opened Word
  import opened ListRegister
  import opened VirqQueue
  import opened GuestRows
  import opened Vgic

  /** The live interface and the rows of all guests. */
  datatype World = World(lr: seq<word>, control: Control, current: nat, rows: seq<Guest>)

  datatype Event =
    | Inject(vmid: nat, virq: word, pirq: word, hw: bool)
    | Check(at: nat)
    | Maintain
    | Ack(slot: nat)
    | Eoi(slot: nat)
    | Program(apr: word, vmcr: word)
    | SwitchTo(next: nat)

  /** The processor's number, and the guests' numbers as written into a register's source field. */
  datatype Names = Names(cpu: word, guests: seq<word>)

  ghost predicate WorldOk(w: World, n: Names) {
    Layout(w.lr, w.current, w.rows) && |n.guests| == |w.rows|
  }

  ghost predicate EventOk(e: Event, guests: nat) {
    (e.Inject? ==> e.vmid < guests) && (e.SwitchTo? ==> e.next < guests)
  }

  // ---------------------------------------------------------------- what one guest sees

  /** One guest by itself: its registers, tables, queue and control registers, and whether it runs. */
  datatype Own = Own(slots: Slots, queue: seq<Entry>, control: Control, running: bool)

  ghost predicate OwnOk(o: Own) {
    Shaped(o.slots) && |o.queue| == ENTRIES
  }

  function Priority0(hw: bool): word {
    if hw then PRIORITY_DEFAULT else 0
  }

  /** An event as one guest experiences it; `mine` tells whether it is addressed to the guest. */
  ghost function OwnStep(o: Own, e: Event, mine: bool, name: word, cpu: word): (r: Own)
    requires OwnOk(o)
    ensures OwnOk(r) && |r.slots.lr| == |o.slots.lr|
  {
    match e
    case Inject(_, virq, pirq, hw) =>
      var x := Entry(pirq, virq, hw, true);
      if !mine then o
      else if o.running then o.(slots := Injected(o.slots, x, Priority0(hw), if hw then cpu else name))
      else if virq in o.slots.virq || FreeRow(o.queue) == |o.queue| then o
      else o.(queue := o.queue[FreeRow(o.queue) := x])
    case Check(_) => if mine && o.running then OwnFlushed(o, cpu) else o
    case Maintain => if o.running then o.(slots := Maintained(o.slots, 0)) else o
    case Ack(s) =>
      if o.running && s < |o.slots.lr| && State(o.slots.lr[s]) == STATE_PENDING
      then o.(slots := o.slots.(lr := o.slots.lr[s := Acked(o.slots.lr[s])])) else o
    case Eoi(s) =>
      if o.running && s < |o.slots.lr| && State(o.slots.lr[s]) == STATE_ACTIVE
      then o.(slots := o.slots.(lr := o.slots.lr[s := Ended(o.slots.lr[s])])) else o
    case Program(apr, vmcr) => if o.running then o.(control := o.control.(apr := apr, vmcr := vmcr)) else o
    case SwitchTo(_) =>
      if mine == o.running then o
      else if !mine then o.(running := false)
      else OwnFlushed(o, cpu).(running := true, control := o.control.(hcr := o.control.hcr | HCR_ENABLE))
  }

  ghost function OwnFlushed(o: Own, cpu: word): (r: Own)
    requires OwnOk(o)
    ensures OwnOk(r) && |r.slots.lr| == |o.slots.lr|
  {
    var r := Flush(o.slots, o.queue, 0, cpu);
    o.(slots := r.slots, queue := r.queue)
  }

  /** Whether an event is addressed to guest `g`. */
  predicate Mine(e: Event, g: nat) {
    (e.Inject? && e.vmid == g) || (e.SwitchTo? && e.next == g) || (e.Check? && e.at == g)
  }

  ghost function OwnRun(o: Own, events: seq<Event>, g: nat, name: word, cpu: word): (r: Own)
    requires OwnOk(o)
    ensures OwnOk(r)
  {
    if events == [] then o
    else
      var e := events[|events| - 1];
      OwnStep(OwnRun(o, events[..|events| - 1], g, name, cpu), e, Mine(e, g), name, cpu)
  }

  // ---------------------------------------------------------------- all guests

  /** The rows of the running guest replaced. */
  function Live(w: World, u: Slots): World
    requires w.current < |w.rows|
  {
    w.(lr := u.lr, rows := w.rows[w.current := Retabled(w.rows[w.current], u)])
  }

  ghost function InjectStep(w: World, g: nat, x: Entry, n: Names): World
    requires WorldOk(w, n) && g < |w.rows|
  {
    assert Fits(w.rows[w.current], |w.lr|);
    if g != w.current then w.(rows := w.rows[g := Queued(w.rows[g], x)])
    else
      var v := ViewOf(w.lr, w.current, w.rows, w.current);
      Live(w, Injected(v, x, Priority0(x.hw), if x.hw then n.cpu else n.guests[g]))
  }

  ghost function CheckStep(w: World, n: Names): World
    requires WorldOk(w, n)
  {
    assert Fits(w.rows[w.current], |w.lr|);
    var r := Flush(ViewOf(w.lr, w.current, w.rows, w.current), w.rows[w.current].queue, 0, n.cpu);
    w.(lr := r.slots.lr, rows := w.rows[w.current := Drained(w.rows[w.current], r)])
  }

  ghost function SwitchStep(w: World, next: nat, n: Names): World
    requires WorldOk(w, n) && next < |w.rows|
  {
    var s := Switched(w.lr, w.control, w.current, w.rows, next, n.cpu);
    World(s.lr, s.control, next, s.rows)
  }

  ghost function Step(w: World, e: Event, n: Names): (t: World)
    requires WorldOk(w, n) && EventOk(e, |w.rows|)
  {
    match e
    case Inject(g, virq, pirq, hw) => InjectStep(w, g, Entry(pirq, virq, hw, true), n)
    case Check(at) => if at != w.current then w else CheckStep(w, n)
    case Maintain =>
      assert Fits(w.rows[w.current], |w.lr|);
      Live(w, Maintained(ViewOf(w.lr, w.current, w.rows, w.current), 0))
    case Ack(s) =>
      if s < |w.lr| && State(w.lr[s]) == STATE_PENDING then w.(lr := w.lr[s := Acked(w.lr[s])]) else w
    case Eoi(s) =>
      if s < |w.lr| && State(w.lr[s]) == STATE_ACTIVE then w.(lr := w.lr[s := Ended(w.lr[s])]) else w
    case Program(apr, vmcr) => w.(control := w.control.(apr := apr, vmcr := vmcr))
    case SwitchTo(next) => if next == w.current then w else SwitchStep(w, next, n)
  }

  function ControlOf(w: World, g: nat): Control
    requires g < |w.rows|
  {
    if g == w.current then w.control else w.rows[g].saved.control
  }

  function OwnOf(w: World, g: nat): Own
    requires g < |w.rows|
  {
    Own(ViewOf(w.lr, w.current, w.rows, g), w.rows[g].queue, ControlOf(w, g), g == w.current)
  }

  lemma OwnOfOk(w: World, n: Names, g: nat)
    requires WorldOk(w, n) && g < |w.rows|
    ensures OwnOk(OwnOf(w, g)) && |OwnOf(w, g).slots.lr| == |w.lr|
  {
    assert Fits(w.rows[g], |w.lr|);
  }

  /** After the step guest `g` sees what it would have come to by itself. */
  ghost predicate Seen(w: World, e: Event, n: Names, g: nat)
    requires WorldOk(w, n) && EventOk(e, |w.rows|) && g < |w.rows|
  {
    OwnOfOk(w, n, g);
    var t := Step(w, e, n);
    && WorldOk(t, n) && |t.rows| == |w.rows|
    && OwnOf(t, g) == OwnStep(OwnOf(w, g), e, Mine(e, g), n.guests[g], n.cpu)
  }

  lemma InjectSeen(w: World, e: Event, n: Names, g: nat)
    requires WorldOk(w, n) && EventOk(e, |w.rows|) && g < |w.rows| && e.Inject?
    ensures Seen(w, e, n, g)
  {
    OwnOfOk(w, n, g);
    assert Fits(w.rows[w.current], |w.lr|);
  }

  lemma FlushSeen(w: World, e: Event, n: Names, g: nat)
    requires WorldOk(w, n) && g < |w.rows| && e.Check?
    ensures Seen(w, e, n, g)
  {
    OwnOfOk(w, n, g);
    assert Fits(w.rows[w.current], |w.lr|);
  }

  lemma SwitchSeen(w: World, e: Event, n: Names, g: nat)
    requires WorldOk(w, n) && EventOk(e, |w.rows|) && g < |w.rows| && e.SwitchTo?
    ensures Seen(w, e, n, g)
  {
    OwnOfOk(w, n, g);
    assert Fits(w.rows[w.current], |w.lr|) && Fits(w.rows[e.next], |w.lr|);
  }

  lemma GuestSeen(w: World, e: Event, n: Names, g: nat)
    requires WorldOk(w, n) && EventOk(e, |w.rows|) && g < |w.rows|
    requires e.Maintain? || e.Ack? || e.Eoi? || e.Program?
    ensures Seen(w, e, n, g)
  {
    OwnOfOk(w, n, g);
    assert Fits(w.rows[w.current], |w.lr|);
  }

  /** One event changes what a guest sees exactly as the guest by itself experiences it. */
  lemma StepSeen(w: World, e: Event, n: Names, g: nat)
    requires WorldOk(w, n) && EventOk(e, |w.rows|) && g < |w.rows|
    ensures var t := Step(w, e, n);
      && WorldOk(t, n) && |t.rows| == |w.rows| && OwnOk(OwnOf(w, g))
      && OwnOf(t, g) == OwnStep(OwnOf(w, g), e, Mine(e, g), n.guests[g], n.cpu)
  {
    OwnOfOk(w, n, g);
    match e
    case Inject(_, _, _, _) =>
      InjectSeen(w, e, n, g);
    case Check(_) =>
      FlushSeen(w, e, n, g);
    case SwitchTo(_) =>
      SwitchSeen(w, e, n, g);
    case _ =>
      GuestSeen(w, e, n, g);
  }

  ghost predicate EventsOk(events: seq<Event>, guests: nat) {
    forall i :: 0 <= i < |events| ==> EventOk(events[i], guests)
  }

  ghost function Run(w: World, events: seq<Event>, n: Names): (t: World)
    requires WorldOk(w, n) && EventsOk(events, |w.rows|)
    ensures WorldOk(t, n) && |t.rows| == |w.rows|
  {
    if events == [] then w
    else
      var t := Run(w, events[..|events| - 1], n);
      StepSeen(t, events[|events| - 1], n, t.current);
      Step(t, events[|events| - 1], n)
  }

  /**
   * Guests do not see one another: in every run, what a guest sees is what it would see by itself, from the events of
   * its own time on the processor and the interrupts injected for it.
   */
  lemma {:induction false} RunIsTransparent(w: World, events: seq<Event>, n: Names, g: nat)
    requires WorldOk(w, n) && EventsOk(events, |w.rows|) && g < |w.rows|
    ensures OwnOk(OwnOf(w, g))
    ensures OwnOf(Run(w, events, n), g) == OwnRun(OwnOf(w, g), events, g, n.guests[g], n.cpu)
  {
    OwnOfOk(w, n, g);
    if events != [] {
      var most := events[..|events| - 1];
      RunIsTransparent(w, most, n, g);
      StepSeen(Run(w, most, n), events[|events| - 1], n, g);
    }
  }

  // ---------------------------------------------------------------- the ledger over a run

  /** Physical interrupts an injection accepts. */
  ghost function AcceptsEntry(w: World, g: nat, x: Entry): multiset<word>
    requires g < |w.rows|
  {
    if g == w.current then Taken(w.lr, x) else if Refused(w.rows[g], x) then multiset{} else EntryOwes(x)
  }

  /** Physical interrupts an event accepts. */
  ghost function Accepts(w: World, e: Event): multiset<word>
    requires EventOk(e, |w.rows|)
  {
    match e
    case Inject(g, virq, pirq, hw) => AcceptsEntry(w, g, Entry(pirq, virq, hw, true))
    case _ => multiset{}
  }

  /** Physical interrupts an event deactivates: only maintenance does, for ended registers of the running guest. */
  ghost function Settled(w: World, e: Event): multiset<word>
    requires Layout(w.lr, w.current, w.rows)
  {
    assert Fits(w.rows[w.current], |w.lr|);
    if e.Maintain? then multiset(Ends(ViewOf(w.lr, w.current, w.rows, w.current), 0)) else multiset{}
  }

  /** The invariant of the interface, with its books. */
  ghost predicate Booked(w: World, accepted: multiset<word>, deactivated: multiset<word>) {
    Consistent(w.lr, w.current, w.rows, accepted, deactivated)
  }

  /** The ledger after an event: it adds what the event accepts, and settles what it deactivates. */
  ghost predicate Balanced(w: World, e: Event, n: Names, accepted: multiset<word>, deactivated: multiset<word>)
    requires WorldOk(w, n) && EventOk(e, |w.rows|)
  {
    Booked(Step(w, e, n), accepted + Accepts(w, e), deactivated + Settled(w, e))
  }

  /** Every event keeps the ledger. Comparing with `true` keeps it in one piece. */
  lemma StepBooked(w: World, e: Event, n: Names, accepted: multiset<word>, deactivated: multiset<word>)
    requires WorldOk(w, n) && EventOk(e, |w.rows|) && Booked(w, accepted, deactivated)
    ensures Balanced(w, e, n, accepted, deactivated) == true
  {
    if e.Maintain? {
      MaintainBooked(w, n, accepted, deactivated);
      assert accepted + multiset{} == accepted;
    } else if e.Inject? {
      InjectBooked(w, e.vmid, Entry(e.pirq, e.virq, e.hw, true), n, accepted, deactivated);
      assert deactivated + multiset{} == deactivated;
    } else {
      QuietBooked(w, e, n, accepted, deactivated);
      NothingBooked(w, e, n, accepted, deactivated);
    }
  }

  lemma NothingBooked(w: World, e: Event, n: Names, accepted: multiset<word>, deactivated: multiset<word>)
    requires WorldOk(w, n) && EventOk(e, |w.rows|) && !e.Maintain? && !e.Inject?
    requires Booked(Step(w, e, n), accepted, deactivated) == true
    ensures Balanced(w, e, n, accepted, deactivated) == true
  {
    assert accepted + multiset{} == accepted && deactivated + multiset{} == deactivated;
  }

  /** Events that neither accept nor settle. */
  lemma QuietBooked(w: World, e: Event, n: Names, accepted: multiset<word>, deactivated: multiset<word>)
    requires WorldOk(w, n) && EventOk(e, |w.rows|) && Booked(w, accepted, deactivated) && !e.Maintain? && !e.Inject?
    ensures Booked(Step(w, e, n), accepted, deactivated) == true
  {
    if e.Check? && e.at == w.current {
      CheckBooked(w, n, accepted, deactivated);
    } else if e.Ack? || e.Eoi? {
      GuestBooked(w, e, n, accepted, deactivated);
    } else if e.SwitchTo? && e.next != w.current {
      SwitchBooked(w, e.next, n, accepted, deactivated);
    }
  }

  lemma InjectBooked(w: World, g: nat, x: Entry, n: Names, accepted: multiset<word>, deactivated: multiset<word>)
    requires WorldOk(w, n) && g < |w.rows| && Booked(w, accepted, deactivated) && x.valid
    ensures Booked(InjectStep(w, g, x, n), accepted + AcceptsEntry(w, g, x), deactivated) == true
  {
    if g == w.current {
      var v, source := ViewOf(w.lr, w.current, w.rows, g), if x.hw then n.cpu else n.guests[g];
      assert Fits(w.rows[w.current], |w.lr|);
      var t := Live(w, Injected(v, x, Priority0(x.hw), source));
      InjectedKeeps(w.lr, w.current, w.rows, accepted, deactivated, x, Priority0(x.hw), source, t.lr, t.rows);
    } else if Refused(w.rows[g], x) {
      assert w.rows[g := w.rows[g]] == w.rows && accepted + multiset{} == accepted;
    } else {
      EnqueueKeeps(w.lr, w.current, w.rows, accepted, deactivated, g, FreeRow(w.rows[g].queue), x);
    }
  }

  lemma CheckBooked(w: World, n: Names, accepted: multiset<word>, deactivated: multiset<word>)
    requires WorldOk(w, n) && Booked(w, accepted, deactivated)
    ensures Booked(CheckStep(w, n), accepted, deactivated) == true
  {
    assert Fits(w.rows[w.current], |w.lr|);
    var v := ViewOf(w.lr, w.current, w.rows, w.current);
    FlushConsistent(w.lr, w.current, w.rows, accepted, deactivated, Flush(v, w.rows[w.current].queue, 0, n.cpu), n.cpu);
  }

  lemma MaintainBooked(w: World, n: Names, accepted: multiset<word>, deactivated: multiset<word>)
    requires WorldOk(w, n) && Booked(w, accepted, deactivated)
    ensures Booked(Step(w, Maintain, n), accepted, deactivated + Settled(w, Maintain)) == true
  {
    assert Fits(w.rows[w.current], |w.lr|);
    var v := ViewOf(w.lr, w.current, w.rows, w.current);
    MaintenanceKeeps(w.lr, w.current, w.rows, accepted, deactivated, v, Maintained(v, 0));
  }

  lemma GuestBooked(w: World, e: Event, n: Names, accepted: multiset<word>, deactivated: multiset<word>)
    requires WorldOk(w, n) && Booked(w, accepted, deactivated) && (e.Ack? || e.Eoi?)
    ensures Booked(Step(w, e, n), accepted, deactivated) == true
  {
    var t := Step(w, e, n);
    GuestMoved(w, e, n, t);
    if t != w {
      MoveBooked(w, e.slot, if e.Ack? then Acked(w.lr[e.slot]) else Ended(w.lr[e.slot]), t, accepted, deactivated);
    }
  }

  lemma GuestMoved(w: World, e: Event, n: Names, t: World)
    requires WorldOk(w, n) && (e.Ack? || e.Eoi?) && t == Step(w, e, n)
    ensures t == w || (e.slot < |w.lr| && State(w.lr[e.slot]) != STATE_INACTIVE
                       && t == w.(lr := w.lr[e.slot := if e.Ack? then Acked(w.lr[e.slot]) else Ended(w.lr[e.slot])]))
  {
  }

  lemma MoveBooked(w: World, s: nat, r: word, w': World, accepted: multiset<word>, deactivated: multiset<word>)
    requires Booked(w, accepted, deactivated) && s < |w.lr| && State(w.lr[s]) != STATE_INACTIVE
    requires (r == Acked(w.lr[s]) || r == Ended(w.lr[s])) && w' == w.(lr := w.lr[s := r])
    ensures Booked(w', accepted, deactivated) == true
  {
    GuestMoveKeeps(w.lr, w.current, w.rows, accepted, deactivated, s, r);
  }

  lemma SwitchBooked(w: World, next: nat, n: Names, accepted: multiset<word>, deactivated: multiset<word>)
    requires WorldOk(w, n) && next < |w.rows| && next != w.current && Booked(w, accepted, deactivated)
    ensures Booked(SwitchStep(w, next, n), accepted, deactivated) == true
  {
    var kept := Saved(w.lr, w.control, w.current, w.rows);
    assert Consistent(kept[next].saved.lr, next, kept, accepted, deactivated) == true by {
      SaveKeeps(w.lr, w.current, w.rows, accepted, deactivated, Status(w.lr, w.control, true));
      SwitchKeeps(w.lr, w.current, kept, accepted, deactivated, next);
    }
    assert Fits(kept[next], |w.lr|);
    FlushConsistent(kept[next].saved.lr, next, kept, accepted, deactivated,
                    Flush(ViewOf(kept[next].saved.lr, next, kept, next), kept[next].queue, 0, n.cpu), n.cpu);
  }

  /** All that a run accepts, or deactivates. */
  ghost function AcceptedIn(w: World, events: seq<Event>, n: Names): multiset<word>
    requires WorldOk(w, n) && EventsOk(events, |w.rows|)
  {
    if events == [] then multiset{}
    else
      var most := events[..|events| - 1];
      AcceptedIn(w, most, n) + Accepts(Run(w, most, n), events[|events| - 1])
  }

  ghost function SettledIn(w: World, events: seq<Event>, n: Names): multiset<word>
    requires WorldOk(w, n) && EventsOk(events, |w.rows|)
  {
    if events == [] then multiset{}
    else
      var most := events[..|events| - 1];
      SettledIn(w, most, n) + Settled(Run(w, most, n), events[|events| - 1])
  }

  /** In every run from an empty interface, what was accepted is what was deactivated
      and what some guest still holds. */
  lemma {:induction false} RunIsBooked(w: World, events: seq<Event>, n: Names)
    requires WorldOk(w, n) && EventsOk(events, |w.rows|) && Booked(w, multiset{}, multiset{})
    ensures Booked(Run(w, events, n), AcceptedIn(w, events, n), SettledIn(w, events, n))
    ensures AcceptedIn(w, events, n) == SettledIn(w, events, n) + Total(Dues(Run(w, events, n).rows))
  {
    if events != [] {
      var most := events[..|events| - 1];
      RunIsBooked(w, most, n);
      StepBooked(Run(w, most, n), events[|events| - 1], n, AcceptedIn(w, most, n), SettledIn(w, most, n));
    }
    BooksBalance(AcceptedIn(w, events, n), SettledIn(w, events, n), Dues(Run(w, events, n).rows));
  }

  /** Nothing is lost and nothing is deactivated twice: what is not yet deactivated is exactly what some guest holds. */
  lemma RunSettlesOnce(w: World, events: seq<Event>, n: Names, p: word)
    requires WorldOk(w, n) && EventsOk(events, |w.rows|) && Booked(w, multiset{}, multiset{})
    ensures SettledIn(w, events, n) <= AcceptedIn(w, events, n)
    ensures p in AcceptedIn(w, events, n) - SettledIn(w, events, n) <==> HeldBySome(Run(w, events, n).rows, p)
  {
    RunIsBooked(w, events, n);
    var t := Run(w, events, n);
    OutstandingIsHeld(t.lr, t.current, t.rows, AcceptedIn(w, events, n), SettledIn(w, events, n), p);
  }

  // ---------------------------------------------------------------- only at its end

  /** Register `s` holds physical interrupt `p`, ended by the guest and waiting for maintenance. */
  ghost predicate EndedIn(v: Slots, s: nat, p: word) {
    Shaped(v) && s < |v.lr| && EoiPending(v.lr[s]) && v.pirq[s] == p
  }

  /** A register just filled is not an ended one. */
  lemma PlacedNotEnded(v: Slots, f: nat, e: Entry, priority: word, source: word, s: nat, p: word)
    requires Shaped(v) && f < |v.lr| && EndedIn(Placed(v, f, e, priority, source), s, p)
    ensures EndedIn(v, s, p)
  {
    PlacedSlot(e.virq, priority, source);
  }

  lemma {:induction false} FlushNotEnded(v: Slots, q: seq<Entry>, i: nat, cpu: word, s: nat, p: word)
    requires Shaped(v) && EndedIn(Flush(v, q, i, cpu).slots, s, p)
    ensures EndedIn(v, s, p)
    decreases |q| - i
  {
    if i < |q| {
      if !q[i].valid {
        FlushNotEnded(v, q, i + 1, cpu, s, p);
      } else if FreeSlot(v.lr) < |v.lr| {
        var u := Placed(v, FreeSlot(v.lr), q[i], PRIORITY_DEFAULT, cpu);
        FlushNotEnded(u, q[i := q[i].(valid := false)], i + 1, cpu, s, p);
        PlacedNotEnded(v, FreeSlot(v.lr), q[i], PRIORITY_DEFAULT, cpu, s, p);
      }
    }
  }

  lemma MaintainedNotEnded(v: Slots, s: nat, p: word)
    requires Shaped(v)
    ensures !EndedIn(Maintained(v, 0), s, p)
  {
    assert !EoiPending(0);
  }

  /** What one guest sees as ended was so before, unless this event is its end. */
  lemma EndedBefore(o: Own, e: Event, mine: bool, name: word, cpu: word, s: nat, p: word)
    requires OwnOk(o) && EndedIn(OwnStep(o, e, mine, name, cpu).slots, s, p)
    ensures EndedIn(o.slots, s, p)
      || (e == Eoi(s) && o.running && s < |o.slots.lr| && State(o.slots.lr[s]) == STATE_ACTIVE && o.slots.pirq[s] == p)
  {
    match e
    case Inject(_, virq, pirq, hw) =>
      var f := FreeSlot(o.slots.lr);
      if mine && o.running && f < |o.slots.lr| {
        PlacedNotEnded(o.slots, f, Entry(pirq, virq, hw, true), Priority0(hw), if hw then cpu else name, s, p);
      }
    case Check(_) =>
      if mine && o.running {
        FlushNotEnded(o.slots, o.queue, 0, cpu, s, p);
      }
    case Maintain =>
      if o.running {
        MaintainedNotEnded(o.slots, s, p);
      }
    case Ack(a) =>
      if o.running && a < |o.slots.lr| {
        GuestMoves(o.slots.lr[a]);
      }
    case Eoi(_) =>
    case Program(_, _) =>
    case SwitchTo(_) =>
      if mine && !o.running {
        FlushNotEnded(o.slots, o.queue, 0, cpu, s, p);
      }
  }

  /** Guest `g` runs and with this event ends the interrupt `p` that it has active in register `s`. */
  ghost predicate EndsNow(t: World, e: Event, g: nat, s: nat, p: word) {
    && e == Eoi(s) && t.current == g < |t.rows| && s < |t.lr| && State(t.lr[s]) == STATE_ACTIVE
    && s < |t.rows[g].pirq| && t.rows[g].pirq[s] == p
  }

  /** It does so with event `j` of a run. */
  ghost predicate EndedAt(w: World, events: seq<Event>, n: Names, g: nat, s: nat, p: word, j: nat)
    requires WorldOk(w, n) && EventsOk(events, |w.rows|)
  {
    j < |events| && EndsNow(Run(w, events[..j], n), events[j], g, s, p)
  }

  lemma EndedStep(t: World, e: Event, n: Names, g: nat, s: nat, p: word)
    requires WorldOk(t, n) && EventOk(e, |t.rows|) && g < |t.rows|
    requires var r := Step(t, e, n); g < |r.rows| && EndedIn(OwnOf(r, g).slots, s, p)
    ensures EndedIn(OwnOf(t, g).slots, s, p) || EndsNow(t, e, g, s, p)
  {
    StepSeen(t, e, n, g);
    EndedBefore(OwnOf(t, g), e, Mine(e, g), n.guests[g], n.cpu, s, p);
  }

  /** From after event `j` until before event `i` the register stays ended, holding `p`. */
  ghost predicate StaysEnded(w: World, events: seq<Event>, n: Names, g: nat, s: nat, p: word, j: nat, i: nat)
    requires WorldOk(w, n) && EventsOk(events, |w.rows|) && g < |w.rows|
  {
    forall m :: j < m <= i && m <= |events| ==> EndedAfter(w, events, n, g, s, p, m)
  }

  /** After `m` events register `s` of guest `g` holds `p` ended. */
  ghost predicate EndedAfter(w: World, events: seq<Event>, n: Names, g: nat, s: nat, p: word, m: nat)
    requires WorldOk(w, n) && EventsOk(events, |w.rows|) && g < |w.rows| && m <= |events|
  {
    EndedIn(OwnOf(Run(w, events[..m], n), g).slots, s, p)
  }

  ghost function EndedFlags(w: World, events: seq<Event>, n: Names, g: nat, s: nat, p: word): (f: seq<bool>)
    requires WorldOk(w, n) && EventsOk(events, |w.rows|) && g < |w.rows|
    ensures |f| == |events| + 1 && forall m :: 0 <= m <= |events| ==> f[m] == EndedAfter(w, events, n, g, s, p, m)
  {
    seq(|events| + 1, m requires 0 <= m <= |events| => EndedAfter(w, events, n, g, s, p, m))
  }

  /** Where the run of true flags that ends at `i` begins: at the start, or after a false one. */
  lemma LastRise(f: seq<bool>, i: nat) returns (j: int)
    requires i < |f| && f[i]
    ensures -1 <= j < i && (j >= 0 ==> !f[j]) && forall m :: j < m <= i ==> f[m]
  {
    j := i - 1;
    while j >= 0 && f[j]
      invariant -1 <= j < i && forall m :: j < m <= i ==> f[m]
    {
      j := j - 1;
    }
  }

  /** A register found ended held its interrupt so from the start, or was ended by its guest during the run and has
      been so ever since. */
  lemma EndedSince(w: World, events: seq<Event>, n: Names, g: nat, s: nat, p: word, i: nat) returns (j: nat)
    requires WorldOk(w, n) && EventsOk(events, |w.rows|) && g < |w.rows| && i <= |events|
    requires EndedAfter(w, events, n, g, s, p, i)
    ensures EndedIn(OwnOf(w, g).slots, s, p)
      || (j < i && EndedAt(w, events, n, g, s, p, j) && StaysEnded(w, events, n, g, s, p, j, i))
  {
    j := 0;
    var k := LastRise(EndedFlags(w, events, n, g, s, p), i);
    if k < 0 {
      assert EndedAfter(w, events, n, g, s, p, 0);
      assert events[..0] == [];
    } else {
      j := k;
      EndedOneLess(w, events, n, g, s, p, j);
    }
  }

  /** Ended after an event means ended before it, or by it. */
  lemma EndedOneLess(w: World, events: seq<Event>, n: Names, g: nat, s: nat, p: word, k: nat)
    requires WorldOk(w, n) && EventsOk(events, |w.rows|) && g < |w.rows| && k < |events|
    requires EndedAfter(w, events, n, g, s, p, k + 1)
    ensures EndedAfter(w, events, n, g, s, p, k) || EndedAt(w, events, n, g, s, p, k)
  {
    RunOneMore(w, events, n, k);
    EndedStep(Run(w, events[..k], n), events[k], n, g, s, p);
  }

  lemma RunOneMore(w: World, events: seq<Event>, n: Names, k: nat)
    requires WorldOk(w, n) && EventsOk(events, |w.rows|) && k < |events|
    ensures Run(w, events[..k + 1], n) == Step(Run(w, events[..k], n), events[k], n)
  {
    assert events[..k + 1][..k] == events[..k];
  }

  /** What maintenance deactivates stood in an ended register. */
  lemma {:induction false} EndsAre(v: Slots, k: nat, p: word) returns (s: nat)
    requires Shaped(v) && p in Ends(v, k)
    ensures EndedIn(v, s, p) && p != INVALID
    decreases |v.lr| - k
  {
    s := k;
    if p in Ends(v, k + 1) {
      s := EndsAre(v, k + 1, p);
    }
  }

  lemma SlotHeld(rows: seq<Guest>, g: nat, p: word)
    requires g < |rows|
    ensures InSlots(rows[g].pirq, p) ==> HeldBySome(rows, p)
  {
    if InSlots(rows[g].pirq, p) {
      assert Holds(rows[g], p);
    }
  }

  /** Before anything is accepted no register holds a physical interrupt. */
  lemma NoneAtFirst(w: World, g: nat, s: nat, p: word)
    requires Booked(w, multiset{}, multiset{}) && g < |w.rows| && p != INVALID
    ensures !EndedIn(OwnOf(w, g).slots, s, p)
  {
    OutstandingIsHeld(w.lr, w.current, w.rows, multiset{}, multiset{}, p);
    SlotHeld(w.rows, g, p);
  }

  /** Maintenance at event `i` deactivates `p`, out of register `s` of the running guest `g`. */
  ghost predicate SettledAt(w: World, events: seq<Event>, n: Names, g: nat, s: nat, p: word, i: nat)
    requires WorldOk(w, n) && EventsOk(events, |w.rows|)
  {
    && i < |events| && events[i].Maintain? && p != INVALID
    && var t := Run(w, events[..i], n);
       t.current == g && EndedIn(ViewOf(t.lr, g, t.rows, g), s, p)
  }

  /**
   * Only at its end: every interrupt that maintenance deactivates in a run stood in a register of the guest whose
   * maintenance it is; that guest, running, had ended it there before, and since then the register was not used again.
   */
  lemma SettledAfterEoi(w: World, events: seq<Event>, n: Names, i: nat, p: word) returns (g: nat, s: nat, j: nat)
    requires WorldOk(w, n) && EventsOk(events, |w.rows|) && Booked(w, multiset{}, multiset{}) && i < |events|
    requires p in Settled(Run(w, events[..i], n), events[i])
    ensures g < |w.rows| && SettledAt(w, events, n, g, s, p, i)
    ensures j < i && EndedAt(w, events, n, g, s, p, j) && StaysEnded(w, events, n, g, s, p, j, i)
  {
    var t := Run(w, events[..i], n);
    g := t.current;
    OwnOfOk(t, n, g);
    s := EndsAre(ViewOf(t.lr, g, t.rows, g), 0, p);
    j := EndedSince(w, events, n, g, s, p, i);
    NoneAtFirst(w, g, s, p);
  }

  /** At most once for each end: between two deactivations out of one register its guest has ended it anew, so no end
      answers for both. */
  lemma EndsApart(w: World, events: seq<Event>, n: Names, g: nat, s: nat, p: word, q: word, i: nat, k: nat, j: nat)
    requires WorldOk(w, n) && EventsOk(events, |w.rows|) && g < |w.rows| && i < k
    requires SettledAt(w, events, n, g, s, p, i) && SettledAt(w, events, n, g, s, q, k)
    requires j < k && EndedAt(w, events, n, g, s, q, j) && StaysEnded(w, events, n, g, s, q, j, k)
    ensures i < j
  {
    var t := Run(w, events[..i], n);
    RunOneMore(w, events, n, i);
    StepSeen(t, events[i], n, g);
    MaintainedNotEnded(OwnOf(t, g).slots, s, q);
    assert !EndedAfter(w, events, n, g, s, q, i + 1);
  }

  // ---------------------------------------------------------------- the interface takes these steps

  ghost function WorldOf(i: Interface): World
    reads i
  {
    World(i.lr, i.control, i.current, i.rows)
  }

  method PerformInject(i: Interface, e: Event)
    requires i.Valid() && EventOk(e, |i.rows|) && e.Inject?
    modifies i
    ensures i.Valid() && WorldOf(i) == Step(old(WorldOf(i)), e, Names(i.cpu, i.names))
  {
    assert Fits(i.rows[i.current], |i.lr|);
    var result, notify := i.VirqInject(e.vmid, e.virq, e.pirq, e.hw);
  }

  method PerformSwitch(i: Interface, e: Event)
    requires i.Valid() && EventOk(e, |i.rows|) && e.SwitchTo?
    modifies i
    ensures i.Valid() && WorldOf(i) == Step(old(WorldOf(i)), e, Names(i.cpu, i.names))
  {
    assert Fits(i.rows[i.current], |i.lr|);
    if e.next != i.current {
      i.Switch(e.next);
    }
  }

  method PerformCheck(i: Interface, e: Event)
    requires i.Valid() && EventOk(e, |i.rows|) && e.Check?
    modifies i
    ensures i.Valid() && WorldOf(i) == Step(old(WorldOf(i)), e, Names(i.cpu, i.names))
  {
    assert Fits(i.rows[i.current], |i.lr|);
    var result := i.SlotCheck(e.at, true);
  }

  method PerformMaintain(i: Interface, e: Event)
    requires i.Valid() && e.Maintain?
    modifies i
    ensures i.Valid() && WorldOf(i) == Step(old(WorldOf(i)), e, Names(i.cpu, i.names))
  {
    assert Fits(i.rows[i.current], |i.lr|);
    var ended := i.MaintenanceIsr();
  }

  method PerformAck(i: Interface, e: Event)
    requires i.Valid() && e.Ack?
    modifies i
    ensures i.Valid() && WorldOf(i) == Step(old(WorldOf(i)), e, Names(i.cpu, i.names))
  {
    assert Fits(i.rows[i.current], |i.lr|);
    if e.slot < |i.lr| && State(i.lr[e.slot]) == STATE_PENDING {
      i.GuestAck(e.slot);
    }
  }

  method PerformEoi(i: Interface, e: Event)
    requires i.Valid() && e.Eoi?
    modifies i
    ensures i.Valid() && WorldOf(i) == Step(old(WorldOf(i)), e, Names(i.cpu, i.names))
  {
    assert Fits(i.rows[i.current], |i.lr|);
    if e.slot < |i.lr| && State(i.lr[e.slot]) == STATE_ACTIVE {
      i.GuestEoi(e.slot);
    }
  }

  /** The routines of the interface do to it what a step says. */
  method Perform(i: Interface, e: Event)
    requires i.Valid() && EventOk(e, |i.rows|)
    modifies i
    ensures i.Valid()
    ensures WorldOf(i) == Step(old(WorldOf(i)), e, Names(i.cpu, i.names))
  {
    match e
    case Inject(_, _, _, _) =>
      PerformInject(i, e);
    case Check(_) =>
      PerformCheck(i, e);
    case Maintain =>
      PerformMaintain(i, e);
    case Ack(_) =>
      PerformAck(i, e);
    case Eoi(_) =>
      PerformEoi(i, e);
    case Program(apr, vmcr) =>
      i.control := i.control.(apr := apr, vmcr := vmcr);
    case SwitchTo(_) =>
      PerformSwitch(i, e);
  }
}
