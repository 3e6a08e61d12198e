/** Pending virtual interrupts of one guest: its list registers, its slot tables and its queue. */
module VirqQueue {
  import opened Word
  import opened ListRegister

  const INVALID: word := 0xffff_ffff
  const SLOTS: nat := 64
  const ENTRIES: nat := 128
  const PRIORITY_DEFAULT: word := 0xa0

  datatype Entry = Entry(pirq: word, virq: word, hw: bool, valid: bool)

  /** List registers, and the pirq and virq tables that remember what was put in each. */
  datatype Slots = Slots(lr: seq<word>, pirq: seq<word>, virq: seq<word>)

  predicate SlotOk(w: word, p: word, q: word) {
    if w == 0 then p == INVALID && q == INVALID else Signals(w) && VirtualId(w) == q & 0x3ff
  }

  predicate Shaped(v: Slots) {
    |v.lr| <= 32 && |v.pirq| == SLOTS && |v.virq| == SLOTS
  }

  /** Registers and tables agree. */
  predicate Coherent(v: Slots) {
    && Shaped(v)
    && (forall s :: 0 <= s < |v.lr| ==> SlotOk(v.lr[s], v.pirq[s], v.virq[s]))
    && (forall s :: |v.lr| <= s < SLOTS ==> v.pirq[s] == INVALID && v.virq[s] == INVALID)
  }

  lemma SlotFree(w: word, p: word, q: word)
    requires SlotOk(w, p, q)
    ensures Empty(w) <==> w == 0
  {
  }

  // ---------------------------------------------------------------- one injection

  /** Register `s` and its table rows after an interrupt has been put there. */
  function Placed(v: Slots, s: nat, e: Entry, priority: word, source: word): Slots
    requires Shaped(v) && s < |v.lr|
  {
    Slots(v.lr[s := Compose(e.virq, STATE_PENDING, priority, 0, source, 1)],
          if e.hw then v.pirq[s := e.pirq] else v.pirq,
          v.virq[s := e.virq])
  }

  /** Register `s` presents the interrupt of `e` to the guest, and the tables remember it. */
  predicate Presents(v: Slots, s: nat, e: Entry, priority: word, source: word)
    requires Shaped(v)
  {
    && s < |v.lr|
    && VirtualId(v.lr[s]) == e.virq & 0x3ff && State(v.lr[s]) == STATE_PENDING
    && Priority(v.lr[s]) == (priority >> 3) & 0x1f && CpuId(v.lr[s]) == source & 0x7 && Signals(v.lr[s])
    && v.virq[s] == e.virq && v.pirq[s] == (if e.hw then e.pirq else INVALID)
  }

  lemma PlacedSlot(virq: word, priority: word, source: word)
    ensures var w := Compose(virq, STATE_PENDING, priority, 0, source, 1);
      w != 0 && Signals(w) && VirtualId(w) == virq & 0x3ff && State(w) == STATE_PENDING && !Empty(w)
  {
    ComposeDecodes(virq, STATE_PENDING, priority, source);
  }

  /** Filling an empty register keeps registers and tables in agreement. */
  lemma PlacedCoherent(v: Slots, s: nat, e: Entry, priority: word, source: word)
    requires Coherent(v) && s < |v.lr| && Empty(v.lr[s])
    ensures Coherent(Placed(v, s, e, priority, source))
    ensures Presents(Placed(v, s, e, priority, source), s, e, priority, source)
    ensures v.pirq[s] == INVALID
  {
    SlotFree(v.lr[s], v.pirq[s], v.virq[s]);
    PlacedSlot(e.virq, priority, source);
    ComposeDecodes(e.virq, STATE_PENDING, priority, source);
    var u := Placed(v, s, e, priority, source);
    assert SlotOk(u.lr[s], u.pirq[s], u.virq[s]);
  }

  // ---------------------------------------------------------------- the ledger

  function One(p: word): multiset<word> {
    if p == INVALID then multiset{} else multiset{p}
  }

  function EntryOwes(e: Entry): multiset<word> {
    if e.valid && e.hw then One(e.pirq) else multiset{}
  }

  function Total(parts: seq<multiset<word>>): multiset<word> {
    if parts == [] then multiset{} else Total(parts[..|parts| - 1]) + parts[|parts| - 1]
  }

  ghost predicate SumsTo(parts: seq<multiset<word>>, total: multiset<word>) {
    total == Total(parts)
  }

  lemma {:induction false} TotalUpdate(parts: seq<multiset<word>>, i: nat, m: multiset<word>)
    requires i < |parts|
    ensures Total(parts[i := m]) + parts[i] == Total(parts) + m
  {
    var n := |parts| - 1;
    if i == n {
      assert parts[i := m][..n] == parts[..n];
    } else {
      assert parts[i := m][..n] == parts[..n][i := m];
      TotalUpdate(parts[..n], i, m);
      Exchange(Total(parts[..n][i := m]), parts[i], Total(parts[..n]), m, parts[n]);
    }
  }

  lemma Exchange(a: multiset<word>, x: multiset<word>, b: multiset<word>, y: multiset<word>, z: multiset<word>)
    requires a + x == b + y
    ensures (a + z) + x == (b + z) + y
  {
    assert (a + z) + x == (a + x) + z && (b + z) + y == (b + y) + z;
  }

  lemma Gain(a: multiset<word>, none: multiset<word>, b: multiset<word>, x: multiset<word>, c: multiset<word>)
    requires none == multiset{} && a + none == b + x
    ensures a == b + x && a + c == (b + c) + x && c + a == (c + b) + x
  {
    assert a + none == a;
    assert (b + x) + c == (b + c) + x;
    assert c + (b + x) == (c + b) + x;
  }

  lemma Handover(a: multiset<word>, b: multiset<word>, c: multiset<word>, d: multiset<word>, x: multiset<word>)
    requires a + x == b && c == d + x
    ensures a + c == b + d
  {
    assert a + (d + x) == (a + x) + d;
  }

  function QueueParts(q: seq<Entry>): seq<multiset<word>> {
    seq(|q|, i requires 0 <= i < |q| => EntryOwes(q[i]))
  }

  function SlotParts(p: seq<word>): seq<multiset<word>> {
    seq(|p|, i requires 0 <= i < |p| => One(p[i]))
  }

  /** Physical interrupts a guest still owes a deactivation: those queued and those in its registers. */
  function Owed(pirq: seq<word>, q: seq<Entry>): multiset<word> {
    Total(QueueParts(q)) + Total(SlotParts(pirq))
  }

  lemma QueueUpdate(q: seq<Entry>, i: nat, e: Entry)
    requires i < |q|
    ensures Total(QueueParts(q[i := e])) + EntryOwes(q[i]) == Total(QueueParts(q)) + EntryOwes(e)
  {
    assert QueueParts(q[i := e]) == QueueParts(q)[i := EntryOwes(e)];
    TotalUpdate(QueueParts(q), i, EntryOwes(e));
  }

  lemma SlotUpdate(p: seq<word>, i: nat, x: word)
    requires i < |p|
    ensures Total(SlotParts(p[i := x])) + One(p[i]) == Total(SlotParts(p)) + One(x)
  {
    assert SlotParts(p[i := x]) == SlotParts(p)[i := One(x)];
    TotalUpdate(SlotParts(p), i, One(x));
  }

  /** Moving a queued interrupt into an empty register changes what is owed by nothing. */
  lemma PlacedOwes(v: Slots, s: nat, q: seq<Entry>, i: nat, priority: word, source: word)
    requires Shaped(v) && s < |v.lr| && v.pirq[s] == INVALID && i < |q| && q[i].valid
    ensures Owed(Placed(v, s, q[i], priority, source).pirq, q[i := q[i].(valid := false)]) == Owed(v.pirq, q)
  {
    var gone := q[i].(valid := false);
    QueueUpdate(q, i, gone);
    assert EntryOwes(gone) == multiset{};
    assert One(INVALID) == multiset{};
    if q[i].hw {
      SlotUpdate(v.pirq, s, q[i].pirq);
    }
    Handover(Total(QueueParts(q[i := gone])), Total(QueueParts(q)),
             Total(SlotParts(Placed(v, s, q[i], priority, source).pirq)), Total(SlotParts(v.pirq)), EntryOwes(q[i]));
  }

  // ---------------------------------------------------------------- flushing the queue

  datatype Flushed = Flushed(slots: Slots, queue: seq<Entry>)

  /** The queue scanned from row `i`: each valid row goes to the lowest empty register, until none is left. */
  function Flush(v: Slots, q: seq<Entry>, i: nat, cpu: word): (r: Flushed)
    requires Shaped(v)
    ensures Shaped(r.slots) && |r.slots.lr| == |v.lr| && |r.queue| == |q|
    decreases |q| - i
  {
    if i >= |q| then Flushed(v, q)
    else if !q[i].valid then Flush(v, q, i + 1, cpu)
    else if FreeSlot(v.lr) == |v.lr| then Flushed(v, q)
    else Flush(Placed(v, FreeSlot(v.lr), q[i], PRIORITY_DEFAULT, cpu), q[i := q[i].(valid := false)], i + 1, cpu)
  }

  lemma {:induction false} FlushKeeps(v: Slots, q: seq<Entry>, i: nat, cpu: word)
    requires Coherent(v)
    ensures Coherent(Flush(v, q, i, cpu).slots)
    ensures Owed(Flush(v, q, i, cpu).slots.pirq, Flush(v, q, i, cpu).queue) == Owed(v.pirq, q)
    decreases |q| - i
  {
    if i < |q| {
      var s := FreeSlot(v.lr);
      if !q[i].valid {
        FlushKeeps(v, q, i + 1, cpu);
      } else if s < |v.lr| {
        PlacedCoherent(v, s, q[i], PRIORITY_DEFAULT, cpu);
        PlacedOwes(v, s, q, i, PRIORITY_DEFAULT, cpu);
        FlushKeeps(Placed(v, s, q[i], PRIORITY_DEFAULT, cpu), q[i := q[i].(valid := false)], i + 1, cpu);
      }
    }
  }

  // ---------------------------------------------------------------- where each entry went

  /** Row `k` went to register `place[k]`, which was empty, and is out of the queue. */
  predicate WentTo(v: Slots, q: seq<Entry>, r: Flushed, k: nat, s: nat, cpu: word)
    requires Shaped(r.slots)
  {
    && k < |q| && |r.queue| == |q| && s < |v.lr| && Empty(v.lr[s]) && q[k].valid
    && Presents(r.slots, s, q[k], PRIORITY_DEFAULT, cpu) && r.queue[k] == q[k].(valid := false)
  }

  predicate SameSlot(v: Slots, u: Slots, s: nat)
    requires Shaped(v) && Shaped(u)
  {
    s < |v.lr| == |u.lr| && u.lr[s] == v.lr[s] && u.pirq[s] == v.pirq[s] && u.virq[s] == v.virq[s]
  }

  /** `place` tells where a flush that started at row `i` put the rows it moved. */
  ghost predicate Moved(v: Slots, q: seq<Entry>, i: nat, r: Flushed, place: map<nat, nat>, cpu: word)
    requires Shaped(r.slots)
  {
    forall k :: k in place ==> i <= k && WentTo(v, q, r, k, place[k], cpu)
  }

  ghost predicate Stayed(v: Slots, q: seq<Entry>, r: Flushed, place: map<nat, nat>)
    requires Shaped(v) && Shaped(r.slots) && |r.queue| == |q| && |r.slots.lr| == |v.lr|
  {
    && (forall k :: 0 <= k < |q| && k !in place ==> r.queue[k] == q[k])
    && (forall s :: 0 <= s < |v.lr| ==> SameSlot(v, r.slots, s) || exists k :: k in place && place[k] == s)
  }

  /** Rows are taken from the front, and fill the registers from the lowest. */
  ghost predicate InOrder(q: seq<Entry>, i: nat, place: map<nat, nat>) {
    && (forall j, k :: j in place && k in place && j < k ==> place[j] < place[k])
    && (forall j: nat, k :: k in place && i <= j < k < |q| && q[j].valid ==> j in place)
  }

  /** A row is left waiting only when no register is empty. */
  ghost predicate Exhausted(q: seq<Entry>, i: nat, r: Flushed, place: map<nat, nat>) {
    forall k :: i <= k < |q| && q[k].valid && k !in place ==> FreeSlot(r.slots.lr) == |r.slots.lr|
  }

  lemma NextFree(v: Slots, e: Entry, priority: word, cpu: word)
    requires Coherent(v) && FreeSlot(v.lr) < |v.lr|
    ensures FreeSlot(v.lr) < FreeSlot(Placed(v, FreeSlot(v.lr), e, priority, cpu).lr)
  {
    PlacedSlot(e.virq, priority, cpu);
    var s, u := FreeSlot(v.lr), Placed(v, FreeSlot(v.lr), e, priority, cpu);
    forall t | 0 <= t <= s
      ensures !Empty(u.lr[t])
    {
      assert t < s ==> u.lr[t] == v.lr[t];
    }
  }

  lemma MovedStep(v: Slots, q: seq<Entry>, i: nat, s: nat, u: Slots, p: seq<Entry>, r: Flushed,
                  rest: map<nat, nat>, cpu: word)
    requires Shaped(v) && Shaped(u) && Shaped(r.slots) && |r.slots.lr| == |v.lr| && |r.queue| == |q|
    requires i < |q| && q[i].valid && s < |v.lr| && Empty(v.lr[s])
    requires u == Placed(v, s, q[i], PRIORITY_DEFAULT, cpu) && p == q[i := q[i].(valid := false)]
    requires Presents(u, s, q[i], PRIORITY_DEFAULT, cpu)
    requires Moved(u, p, i + 1, r, rest, cpu) && Stayed(u, p, r, rest)
    requires Above(s + 1, rest)
    ensures Moved(v, q, i, r, rest[i := s], cpu)
  {
    assert i !in rest && r.queue[i] == p[i];
    assert SameSlot(u, r.slots, s);
    forall k | k in rest
      ensures WentTo(v, q, r, k, rest[k], cpu)
    {
      assert WentTo(u, p, r, k, rest[k], cpu);
      assert u.lr[rest[k]] == v.lr[rest[k]] && p[k] == q[k];
    }
  }

  lemma StayedStep(v: Slots, q: seq<Entry>, i: nat, s: nat, u: Slots, p: seq<Entry>, r: Flushed, rest: map<nat, nat>)
    requires Shaped(v) && Shaped(u) && Shaped(r.slots) && |r.slots.lr| == |u.lr| == |v.lr| && |r.queue| == |p| == |q|
    requires i < |q| && s < |v.lr| && i !in rest
    requires forall t :: 0 <= t < |v.lr| && t != s ==> SameSlot(v, u, t)
    requires forall k :: 0 <= k < |q| && k != i ==> p[k] == q[k]
    requires Stayed(u, p, r, rest)
    ensures Stayed(v, q, r, rest[i := s])
  {
    var place := rest[i := s];
    assert i in place && place[i] == s;
    forall t | 0 <= t < |v.lr|
      ensures SameSlot(v, r.slots, t) || exists k :: k in place && place[k] == t
    {
      if t != s {
        assert SameSlot(v, u, t);
        if !SameSlot(u, r.slots, t) {
          var k :| k in rest && rest[k] == t;
          assert k in place && place[k] == t;
        }
      }
    }
  }

  /** The register each moved row went to. */
  ghost function Place(v: Slots, q: seq<Entry>, i: nat, cpu: word): (place: map<nat, nat>)
    requires Shaped(v)
    ensures forall k :: k in place ==> i <= k < |q| && place[k] < |v.lr|
    decreases |q| - i
  {
    var s := FreeSlot(v.lr);
    if i >= |q| then map[]
    else if !q[i].valid then Place(v, q, i + 1, cpu)
    else if s == |v.lr| then map[]
    else Place(Placed(v, s, q[i], PRIORITY_DEFAULT, cpu), q[i := q[i].(valid := false)], i + 1, cpu)[i := s]
  }

  ghost predicate Above(s: nat, place: map<nat, nat>) {
    forall k :: k in place ==> s <= place[k]
  }

  lemma {:induction false} PlaceAbove(v: Slots, q: seq<Entry>, i: nat, cpu: word)
    requires Coherent(v)
    ensures Above(FreeSlot(v.lr), Place(v, q, i, cpu))
    decreases |q| - i
  {
    if i < |q| {
      var s := FreeSlot(v.lr);
      if !q[i].valid {
        PlaceAbove(v, q, i + 1, cpu);
      } else if s < |v.lr| {
        PlacedCoherent(v, s, q[i], PRIORITY_DEFAULT, cpu);
        NextFree(v, q[i], PRIORITY_DEFAULT, cpu);
        PlaceAbove(Placed(v, s, q[i], PRIORITY_DEFAULT, cpu), q[i := q[i].(valid := false)], i + 1, cpu);
      }
    }
  }

  /** The scan once it has put row `i` into the lowest empty register. */
  lemma FlushStep(v: Slots, q: seq<Entry>, i: nat, s: nat, u: Slots, p: seq<Entry>, cpu: word)
    requires Coherent(v) && i < |q| && q[i].valid && s == FreeSlot(v.lr) && s < |v.lr|
    requires u == Placed(v, s, q[i], PRIORITY_DEFAULT, cpu) && p == q[i := q[i].(valid := false)]
    ensures Coherent(u) && Presents(u, s, q[i], PRIORITY_DEFAULT, cpu)
    ensures forall t :: 0 <= t < |v.lr| && t != s ==> SameSlot(v, u, t)
    ensures Flush(v, q, i, cpu) == Flush(u, p, i + 1, cpu)
    ensures Place(v, q, i, cpu) == Place(u, p, i + 1, cpu)[i := s]
    ensures Above(s + 1, Place(u, p, i + 1, cpu))
  {
    PlacedCoherent(v, s, q[i], PRIORITY_DEFAULT, cpu);
    NextFree(v, q[i], PRIORITY_DEFAULT, cpu);
    PlaceAbove(u, p, i + 1, cpu);
  }

  /** Every moved row sits in a register that was empty. */
  lemma {:induction false} FlushMoves(v: Slots, q: seq<Entry>, i: nat, cpu: word)
    requires Coherent(v)
    ensures Moved(v, q, i, Flush(v, q, i, cpu), Place(v, q, i, cpu), cpu)
    ensures Stayed(v, q, Flush(v, q, i, cpu), Place(v, q, i, cpu))
    decreases |q| - i
  {
    if i < |q| {
      if !q[i].valid {
        FlushMoves(v, q, i + 1, cpu);
      } else if FreeSlot(v.lr) < |v.lr| {
        FlushMovesOne(v, q, i, FreeSlot(v.lr), cpu);
      }
    }
  }

  lemma {:induction false} FlushMovesOne(v: Slots, q: seq<Entry>, i: nat, s: nat, cpu: word)
    requires Coherent(v) && i < |q| && q[i].valid && s == FreeSlot(v.lr) && s < |v.lr|
    ensures Moved(v, q, i, Flush(v, q, i, cpu), Place(v, q, i, cpu), cpu)
    ensures Stayed(v, q, Flush(v, q, i, cpu), Place(v, q, i, cpu))
    decreases |q| - i, 0
  {
    var u, p := Placed(v, s, q[i], PRIORITY_DEFAULT, cpu), q[i := q[i].(valid := false)];
    FlushStep(v, q, i, s, u, p, cpu);
    FlushMoves(u, p, i + 1, cpu);
    BothStep(v, q, i, s, u, p, Flush(u, p, i + 1, cpu), Place(u, p, i + 1, cpu), cpu);
  }

  lemma BothStep(v: Slots, q: seq<Entry>, i: nat, s: nat, u: Slots, p: seq<Entry>, r: Flushed, rest: map<nat, nat>,
                 cpu: word)
    requires Shaped(v) && Shaped(u) && Shaped(r.slots) && |r.slots.lr| == |u.lr| == |v.lr| && |r.queue| == |p| == |q|
    requires i < |q| && q[i].valid && s < |v.lr| && Empty(v.lr[s])
    requires u == Placed(v, s, q[i], PRIORITY_DEFAULT, cpu) && p == q[i := q[i].(valid := false)]
    requires Presents(u, s, q[i], PRIORITY_DEFAULT, cpu)
    requires forall t :: 0 <= t < |v.lr| && t != s ==> SameSlot(v, u, t)
    requires Moved(u, p, i + 1, r, rest, cpu) && Stayed(u, p, r, rest) && Above(s + 1, rest)
    ensures Moved(v, q, i, r, rest[i := s], cpu) == true && Stayed(v, q, r, rest[i := s]) == true
  {
    MovedStep(v, q, i, s, u, p, r, rest, cpu);
    StayedStep(v, q, i, s, u, p, r, rest);
  }

  lemma {:induction false} FlushInOrder(v: Slots, q: seq<Entry>, i: nat, cpu: word)
    requires Coherent(v)
    ensures InOrder(q, i, Place(v, q, i, cpu))
    decreases |q| - i
  {
    if i < |q| {
      if !q[i].valid {
        FlushInOrder(v, q, i + 1, cpu);
      } else if FreeSlot(v.lr) < |v.lr| {
        var s := FreeSlot(v.lr);
        var u, p := Placed(v, s, q[i], PRIORITY_DEFAULT, cpu), q[i := q[i].(valid := false)];
        FlushStep(v, q, i, s, u, p, cpu);
        FlushInOrder(u, p, i + 1, cpu);
        InOrderStep(q, p, i, s, Place(u, p, i + 1, cpu));
      }
    }
  }

  lemma InOrderStep(q: seq<Entry>, p: seq<Entry>, i: nat, s: nat, rest: map<nat, nat>)
    requires i < |q| && |p| == |q| && forall k :: i < k < |q| ==> p[k] == q[k]
    requires InOrder(p, i + 1, rest) && Above(s + 1, rest) && forall k :: k in rest ==> i < k
    ensures InOrder(q, i, rest[i := s])
  {
  }

  /** A row is left waiting only when every register is in use. */
  lemma {:induction false} FlushExhausts(v: Slots, q: seq<Entry>, i: nat, cpu: word)
    requires Coherent(v)
    ensures Exhausted(q, i, Flush(v, q, i, cpu), Place(v, q, i, cpu))
    decreases |q| - i
  {
    if i < |q| {
      if !q[i].valid {
        FlushExhausts(v, q, i + 1, cpu);
      } else if FreeSlot(v.lr) < |v.lr| {
        var s := FreeSlot(v.lr);
        var u, p := Placed(v, s, q[i], PRIORITY_DEFAULT, cpu), q[i := q[i].(valid := false)];
        FlushStep(v, q, i, s, u, p, cpu);
        FlushExhausts(u, p, i + 1, cpu);
        assert forall k :: i < k < |q| ==> p[k] == q[k];
      }
    }
  }

  /**
   * A flush by what it leaves behind: every row of the queue stayed as it was or went to a register that was empty,
   * which now presents it; other registers kept their words and table rows; the rows that went are the first valid
   * ones, in ascending registers; and a row waits only while no register is empty.
   */
  ghost predicate Delivery(v: Slots, q: seq<Entry>, r: Flushed, cpu: word) {
    && Shaped(v) && Shaped(r.slots) && |r.queue| == |q| && |r.slots.lr| == |v.lr|
    && exists place: map<nat, nat> ::
         Moved(v, q, 0, r, place, cpu) && Stayed(v, q, r, place) && InOrder(q, 0, place) && Exhausted(q, 0, r, place)
  }

  lemma FlushDelivers(v: Slots, q: seq<Entry>, cpu: word, r: Flushed)
    requires Coherent(v) && r == Flush(v, q, 0, cpu)
    ensures Delivery(v, q, r, cpu) == true
  {
    FlushMoves(v, q, 0, cpu);
    FlushInOrder(v, q, 0, cpu);
    FlushExhausts(v, q, 0, cpu);
    assert Moved(v, q, 0, r, Place(v, q, 0, cpu), cpu);
  }

  // ---------------------------------------------------------------- ended interrupts

  /** Maintenance register by register: one that ended is cleared with its table rows, every other one is kept. */
  predicate CleanedOf(v: Slots, u: Slots) {
    && Shaped(v) && Shaped(u) && |u.lr| == |v.lr|
    && (forall s :: 0 <= s < |v.lr| && EoiPending(v.lr[s]) ==>
          u.lr[s] == 0 && u.pirq[s] == 0xffff_ffff && u.virq[s] == 0xffff_ffff)
    && (forall s :: 0 <= s < |v.lr| && !EoiPending(v.lr[s]) ==> u.lr[s] == v.lr[s])
    && (forall s :: 0 <= s < SLOTS && !(s < |v.lr| && EoiPending(v.lr[s])) ==>
          u.pirq[s] == v.pirq[s] && u.virq[s] == v.virq[s])
  }

  lemma MaintainedCleans(v: Slots, u: Slots)
    requires Shaped(v) && u == Maintained(v, 0)
    ensures CleanedOf(v, u) == true
  {
  }

  /** The registers and tables once maintenance has cleaned every ended register from `k` up. */
  function Maintained(v: Slots, k: nat): (u: Slots)
    requires Shaped(v)
    ensures Shaped(u) && |u.lr| == |v.lr|
  {
    Slots(seq(|v.lr|, s requires 0 <= s < |v.lr| => if s >= k && EoiPending(v.lr[s]) then 0 else v.lr[s]),
          seq(SLOTS, s requires 0 <= s < SLOTS =>
              if k <= s < |v.lr| && EoiPending(v.lr[s]) then INVALID else v.pirq[s]),
          seq(SLOTS, s requires 0 <= s < SLOTS =>
              if k <= s < |v.lr| && EoiPending(v.lr[s]) then INVALID else v.virq[s]))
  }

  /** The physical interrupts that maintenance deactivates, from the highest register down to `k`. */
  function Ends(v: Slots, k: nat): seq<word>
    requires Shaped(v)
    decreases |v.lr| - k
  {
    if k >= |v.lr| then []
    else Ends(v, k + 1) + (if EoiPending(v.lr[k]) && v.pirq[k] != INVALID then [v.pirq[k]] else [])
  }

  /** The register's interrupt is deactivated: it ended, and a physical interrupt is behind it. */
  predicate Due(v: Slots, s: nat)
    requires Shaped(v)
  {
    s < |v.lr| && EoiPending(v.lr[s]) && v.pirq[s] != 0xffff_ffff
  }

  /** The registers whose interrupts are deactivated, from the highest down: all that are due from `k` up, each once. */
  lemma {:induction false} EndsDescend(v: Slots, k: nat) returns (slots: seq<nat>)
    requires Shaped(v) && k <= |v.lr|
    ensures |slots| == |Ends(v, k)|
    ensures forall i :: 0 <= i < |slots| ==> k <= slots[i] && Due(v, slots[i]) && Ends(v, k)[i] == v.pirq[slots[i]]
    ensures forall i, j :: 0 <= i < j < |slots| ==> slots[i] > slots[j]
    ensures forall s: nat :: k <= s && Due(v, s) ==> s in slots
    decreases |v.lr| - k
  {
    if k == |v.lr| {
      slots := [];
    } else {
      slots := EndsDescend(v, k + 1);
      if Due(v, k) {
        slots := slots + [k];
      }
    }
  }

  lemma MaintainedKeeps(v: Slots, k: nat)
    requires Coherent(v)
    ensures Coherent(Maintained(v, k))
  {
    var u := Maintained(v, k);
    forall s | 0 <= s < |u.lr|
      ensures SlotOk(u.lr[s], u.pirq[s], u.virq[s])
    {
      assert SlotOk(v.lr[s], v.pirq[s], v.virq[s]);
    }
  }

  /** After maintenance no register is waiting for it: each is empty or still in use. */
  lemma NothingPending(v: Slots)
    requires Coherent(v)
    ensures forall s :: 0 <= s < |v.lr| ==> !EoiPending(Maintained(v, 0).lr[s])
    ensures forall s :: 0 <= s < |v.lr| ==> (Empty(Maintained(v, 0).lr[s]) <==> State(v.lr[s]) == STATE_INACTIVE)
  {
    forall s | 0 <= s < |v.lr|
      ensures !EoiPending(Maintained(v, 0).lr[s])
      ensures Empty(Maintained(v, 0).lr[s]) <==> State(v.lr[s]) == STATE_INACTIVE
    {
      assert SlotOk(v.lr[s], v.pirq[s], v.virq[s]);
    }
  }

  lemma MaintainedStep(v: Slots, k: nat)
    requires Shaped(v) && k < |v.lr|
    ensures var u := Maintained(v, k + 1);
      Maintained(v, k) ==
        if EoiPending(v.lr[k]) then Slots(u.lr[k := 0], u.pirq[k := INVALID], u.virq[k := INVALID]) else u
  {
  }

  lemma MaintainedNone(v: Slots)
    requires Shaped(v)
    ensures Maintained(v, |v.lr|) == v
  {
  }

  lemma EndsStep(all: multiset<word>, a: multiset<word>, b: multiset<word>, ends: seq<word>, p: word)
    requires all == a + multiset(ends) && b + One(p) == a + One(INVALID)
    ensures all == b + multiset(ends + (if p != INVALID then [p] else []))
  {
    assert One(INVALID) == multiset{};
    assert a == b + One(p);
    if p != INVALID {
      assert multiset(ends + [p]) == multiset(ends) + multiset{p};
      assert (b + multiset{p}) + multiset(ends) == b + (multiset(ends) + multiset{p});
    } else {
      assert ends + [] == ends;
      assert b + One(p) == b;
    }
  }

  /** What `before` holds is what `after` holds together with `ends`. The sum is named by a predicate, so that the
      equation is unfolded only where `SettlesMeans` is called. */
  ghost predicate Settles(before: seq<word>, after: seq<word>, ends: seq<word>) {
    forall owed :: SumsTo(SlotParts(before), owed) ==> owed == Total(SlotParts(after)) + multiset(ends)
  }

  lemma SettlesMeans(before: seq<word>, after: seq<word>, ends: seq<word>)
    ensures Settles(before, after, ends) <==>
      Total(SlotParts(before)) == Total(SlotParts(after)) + multiset(ends)
  {
    assert SumsTo(SlotParts(before), Total(SlotParts(before)));
  }

  lemma SettlesNone(before: seq<word>)
    ensures Settles(before, before, []) == true
  {
    SettlesMeans(before, before, []);
  }

  /** One ended register more: its physical interrupt leaves the table and joins the list. */
  lemma SettlesOne(before: seq<word>, p: seq<word>, k: nat, ends: seq<word>, one: seq<word>)
    requires k < |p| && Settles(before, p, ends) == true && one == if p[k] != INVALID then [p[k]] else []
    ensures Settles(before, p[k := INVALID], ends + one) == true
  {
    SettlesMeans(before, p, ends);
    SettlesMeans(before, p[k := INVALID], ends + one);
    SlotUpdate(p, k, INVALID);
    EndsStep(Total(SlotParts(before)), Total(SlotParts(p)), Total(SlotParts(p[k := INVALID])), ends, p[k]);
  }

  /** What maintenance deactivates from register `k` up is what the guest owed and no longer owes. */
  lemma {:induction false} EndsOwes(v: Slots, k: nat)
    requires Shaped(v) && k <= |v.lr|
    ensures Settles(v.pirq, Maintained(v, k).pirq, Ends(v, k)) == true
    decreases |v.lr| - k
  {
    if k == |v.lr| {
      MaintainedNone(v);
      SettlesNone(v.pirq);
    } else {
      EndsOwes(v, k + 1);
      EndsNext(v, k);
      SettlesNext(v.pirq, Maintained(v, k + 1).pirq, Maintained(v, k).pirq, k, Ends(v, k + 1), Ends(v, k),
                  EoiPending(v.lr[k]));
    }
  }

  /** What cleaning register `k` as well changes in the table and adds to the list. */
  predicate EndedNext(p: seq<word>, p': seq<word>, k: nat, ends: seq<word>, ends': seq<word>, pending: bool) {
    && k < |p| && p' == (if pending then p[k := INVALID] else p)
    && ends' == if pending && p[k] != INVALID then ends + [p[k]] else ends
  }

  lemma EndsNext(v: Slots, k: nat)
    requires Shaped(v) && k < |v.lr|
    ensures EndedNext(Maintained(v, k + 1).pirq, Maintained(v, k).pirq, k, Ends(v, k + 1), Ends(v, k),
                      EoiPending(v.lr[k])) == true
  {
    MaintainedStep(v, k);
    assert Maintained(v, k + 1).pirq[k] == v.pirq[k];
    assert Ends(v, k + 1) + [] == Ends(v, k + 1);
  }

  lemma SettlesNext(before: seq<word>, p: seq<word>, p': seq<word>, k: nat, ends: seq<word>, ends': seq<word>,
                    pending: bool)
    requires Settles(before, p, ends) == true && EndedNext(p, p', k, ends, ends', pending) == true
    ensures Settles(before, p', ends') == true
  {
    if pending {
      assert ends + [] == ends;
      SettlesOne(before, p, k, ends, if p[k] != INVALID then [p[k]] else []);
    }
  }

  lemma {:induction false} EndsSkip(v: Slots, k: nat, j: nat)
    requires Shaped(v) && k <= j <= |v.lr|
    requires forall s :: k <= s < j ==> !EoiPending(v.lr[s])
    ensures Ends(v, k) == Ends(v, j) && Maintained(v, k) == Maintained(v, j)
    decreases j - k
  {
    if k < j {
      EndsSkip(v, k + 1, j);
      MaintainedStep(v, k);
    }
  }

  // ---------------------------------------------------------------- queueing for a guest that is not running

  /** The first row without a valid interrupt, or the number of rows. */
  function FreeRow(q: seq<Entry>): (i: nat)
    ensures i <= |q|
    ensures i < |q| ==> !q[i].valid
    ensures forall j :: 0 <= j < i ==> q[j].valid
  {
    if q == [] then 0 else if !q[0].valid then 0 else FreeRow(q[1..]) + 1
  }

  lemma EnqueueOwes(pirq: seq<word>, q: seq<Entry>, i: nat, e: Entry)
    requires i < |q| && !q[i].valid
    ensures Owed(pirq, q[i := e]) == Owed(pirq, q) + EntryOwes(e)
  {
    QueueUpdate(q, i, e);
    Gain(Total(QueueParts(q[i := e])), EntryOwes(q[i]), Total(QueueParts(q)), EntryOwes(e), Total(SlotParts(pirq)));
  }

  lemma InjectOwes(v: Slots, s: nat, q: seq<Entry>, e: Entry, priority: word, source: word)
    requires Shaped(v) && s < |v.lr| && v.pirq[s] == INVALID && e.valid
    ensures Owed(Placed(v, s, e, priority, source).pirq, q) == Owed(v.pirq, q) + EntryOwes(e)
  {
    if e.hw {
      SlotUpdate(v.pirq, s, e.pirq);
      Gain(Total(SlotParts(v.pirq[s := e.pirq])), One(INVALID),
           Total(SlotParts(v.pirq)), One(e.pirq), Total(QueueParts(q)));
    }
  }

  // ---------------------------------------------------------------- guest steps

  /** What a guest may do to a register: move its state. */
  lemma GuestKeeps(v: Slots, s: nat, w: word)
    requires Coherent(v) && s < |v.lr| && State(v.lr[s]) != STATE_INACTIVE
    requires w == Acked(v.lr[s]) || w == Ended(v.lr[s])
    ensures Coherent(Slots(v.lr[s := w], v.pirq, v.virq))
    ensures w == Ended(v.lr[s]) ==> EoiPending(w)
  {
    assert SlotOk(v.lr[s], v.pirq[s], v.virq[s]);
    GuestMoves(v.lr[s]);
  }

  lemma Ledger(before: multiset<word>, after: multiset<word>, x: multiset<word>, y: multiset<word>,
               settled: multiset<word>, more: multiset<word>, ended: multiset<word>)
    requires after + x == before + y && y + ended == x + more
    ensures (settled + before) + more == (settled + ended) + after
  {
    calc {
      ((settled + before) + more) + (x + y);
      (settled + (before + y)) + (x + more);
      (settled + (after + x)) + (y + ended);
      ((settled + ended) + after) + (x + y);
    }
    Cancel((settled + before) + more, (settled + ended) + after, x + y);
  }

  lemma Cancel(a: multiset<word>, b: multiset<word>, c: multiset<word>)
    requires a + c == b + c
    ensures a == b
  {
    assert (a + c) - c == a && (b + c) - c == b;
  }
}
