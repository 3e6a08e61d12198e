/** Which units of the Hyp heap lie in valid pages: a growth that is no whole number of pages is refused, and from then
    on the pages of what is granted are never mapped. */
module HeapBacking {
  import opened FreeList
  import opened HeapBreak
  import opened HeapPages
  import opened Machine

  /**
   * Of the units granted, exactly those in `backed` lie in valid pages; they are all of them
   * unless a growth was no whole number of pages (`partial`).
   */
  ghost predicate Backs(s: Break, valid: set<nat>, granted: set<nat>, backed: set<nat>, partial: bool, end: nat) {
    && Phase(s, end, partial) && NoneAbove(valid, s.brk)
    && backed <= granted && (!partial ==> backed == granted)
    && forall u :: u in granted ==> (InValid(valid, u) <==> u in backed)
  }

  ghost predicate InValid(valid: set<nat>, u: nat) {
    u / PAGE_UNITS in valid
  }

  function Span(b: Block): set<nat> {
    set u: nat | b.addr <= u < b.End() && b.Holds(u)
  }

  /** The pages of a block's units are the pages its bytes touch. */
  lemma UnitTouched(b: Block, u: nat)
    requires b.Holds(u)
    ensures Touched(b.addr * UNIT, b.size * UNIT, u / PAGE_UNITS)
  {
  }

  /** A page that a block touches holds one of its units. */
  lemma TouchedUnit(b: Block, k: nat) returns (u: nat)
    requires b.size > 0 && Touched(b.addr * UNIT, b.size * UNIT, k)
    ensures u in Span(b) && u / PAGE_UNITS == k
  {
    u := if b.addr < k * PAGE_UNITS then k * PAGE_UNITS else b.addr;
    assert k * PAGE_UNITS <= u < (k + 1) * PAGE_UNITS;
    assert b.Holds(u);
  }

  /** All pages of a block are valid exactly when all its units are backed. */
  lemma SpanBacked(b: Block, valid: set<nat>, backed: set<nat>)
    requires b.size > 0 && forall u :: u in Span(b) ==> (InValid(valid, u) <==> u in backed)
    ensures Backed(b.addr * UNIT, b.size * UNIT, valid) <==> Span(b) <= backed
  {
    if Span(b) <= backed {
      forall k: nat | Touched(b.addr * UNIT, b.size * UNIT, k)
        ensures k in valid
      {
        var u := TouchedUnit(b, k);
        assert InValid(valid, u);
      }
    }
    if Backed(b.addr * UNIT, b.size * UNIT, valid) {
      forall u | u in Span(b)
        ensures u in backed
      {
        UnitTouched(b, u);
      }
    }
  }

  /** A growth by `units`, granted or refused. */
  lemma BacksGrow(s: Break, valid: set<nat>, granted: set<nat>, backed: set<nat>, partial: bool, end: nat, b: Block)
    requires Backs(s, valid, granted, backed, partial, end) && InRange(s, end) && end % PAGE == 0
    requires s.brk == b.addr * UNIT && 0 < b.size && s.brk + b.size * UNIT < WORD_RANGE
    ensures var incr := b.size * UNIT; var g := Granted(s, incr, end);
      && Backs(After(s, incr, end), valid + Newly(s, incr, end), if g then granted + Span(b) else granted,
               if g && !partial then backed + Span(b) else backed, partial || b.size % PAGE_UNITS != 0, end)
  {
    var incr := b.size * UNIT;
    PhaseStep(s, valid, incr, end, partial);
    if Granted(s, incr, end) {
      BackedExactly(s, valid, incr, end, partial);
      forall u | u in granted + Span(b)
        ensures InValid(valid + Newly(s, incr, end), u) <==> u in if !partial then backed + Span(b) else backed
      {
      }
    }
  }
}
