/** The page-by-page growth of the Hyp heap: the break, the mapped end and the valid
    bits of the level-3 table behind `sbrk`. */
module HeapPages {
  import opened HeapBreak
  import opened Machine

  const UNIT := 8
  const PAGE_UNITS := 512
  const L3_ENTRIES := 512 * 512

  /** The level-3 entry for `virt`, refused when the table seems too small: the test compares
      a signed count with an unsigned one. */
  function L3Entry(virt: nat, npages: nat): Option<nat> {
    var l2, l3 := virt / 0x20_0000 % 512, virt / PAGE % 512;
    var maxsize := L3_ENTRIES - (l2 + 1) * (l3 + 1) + 1;
    if maxsize % WORD_RANGE < npages then None else Some(l2 * 512 + l3)
  }

  /** The bound check never refuses pages of the heap, which all lie in one level-2 table. */
  lemma L3InBounds(page: nat, npages: nat, table: nat)
    requires table * L3_ENTRIES <= page && 0 < npages && page + npages <= (table + 1) * L3_ENTRIES
    ensures L3Entry(page * PAGE, npages) == Some(page - table * L3_ENTRIES)
  {
    var l2, l3 := (page - table * L3_ENTRIES) / 512, (page - table * L3_ENTRIES) % 512;
    TableIndex(page, table);
    assert page - table * L3_ENTRIES == l2 * 512 + l3;
    SizePasses(l2, l3, npages);
  }

  /** The test passes for any pages of the table from entry `l3` of block `l2` on. */
  lemma SizePasses(l2: nat, l3: nat, npages: nat)
    requires l2 < 512 && l3 < 512 && 0 < npages && l2 * 512 + l3 + npages <= L3_ENTRIES
    ensures var maxsize := L3_ENTRIES - (l2 + 1) * (l3 + 1) + 1;
      npages <= maxsize % WORD_RANGE
  {
    CountBound(l2, l3);
    Unwrapped(L3_ENTRIES - (l2 + 1) * (l3 + 1) + 1);
  }

  lemma Unwrapped(n: nat)
    requires n < WORD_RANGE
    ensures n % WORD_RANGE == n
  {
  }

  lemma TableIndex(page: nat, table: nat)
    requires table * L3_ENTRIES <= page < (table + 1) * L3_ENTRIES
    ensures page * PAGE / 0x20_0000 % 512 == (page - table * L3_ENTRIES) / 512
    ensures page * PAGE / PAGE % 512 == (page - table * L3_ENTRIES) % 512
  {
    var p := page - table * L3_ENTRIES;
    assert page * PAGE / 0x20_0000 == page / 512 == table * 512 + p / 512;
  }

  /** The product the check subtracts is at most the number of entries before and including the first. */
  lemma CountBound(l2: nat, l3: nat)
    requires l2 < 512 && l3 < 512
    ensures 0 < (l2 + 1) * (l3 + 1) <= l2 * 512 + l3 + 1
  {
    ProductBound(l2, l3 + 1);
    assert (l2 + 1) * (l3 + 1) == l2 * (l3 + 1) + l3 + 1;
  }

  lemma {:induction false} ProductBound(a: nat, b: nat)
    requires b <= 512
    ensures 0 <= a * b <= a * 512
  {
    if a > 0 {
      ProductBound(a - 1, b);
      assert a * b == (a - 1) * b + b;
    }
  }

  lemma CounterStep(need: nat, pages: nat)
    requires need % PAGE == 0 ==> need >= pages * PAGE
    ensures ((need - pages * PAGE) % WORD_RANGE - PAGE) % WORD_RANGE == (need - (pages + 1) * PAGE) % WORD_RANGE
    ensures need % PAGE == 0 && (need - pages * PAGE) % WORD_RANGE > 0 ==> need >= (pages + 1) * PAGE
  {
  }

  /** The counter is 0 only once exactly the bytes needed have been taken. */
  lemma CounterZero(need: nat, pages: nat)
    requires 0 < need < WORD_RANGE && pages * PAGE < WORD_RANGE && (need - pages * PAGE) % WORD_RANGE == 0
    ensures need == pages * PAGE && pages > 0
  {
  }

  class Pages {
    const startPage: nat            // HEAP_ADDR, in pages
    const endPage: nat              // HEAP_END_ADDR, in pages
    const table: nat                // the 1 GB region whose level-3 tables map the heap
    const l3Valid: array<bool>      // valid bits of those tables, flattened
    var brk: nat                    // mm_break
    var prevBrk: nat                // mm_prev_break
    var last: nat                   // last_valid_address

    ghost var brkUnits: nat         // the break, in units
    ghost var lastPage: nat         // the mapped end, in pages
    ghost var mappedPage: nat       // end of the pages mapped in step with the break

    ghost predicate Layout() {
      && 0 < startPage < endPage && endPage * PAGE < WORD_RANGE
      && table * L3_ENTRIES <= startPage && endPage <= (table + 1) * L3_ENTRIES
      && l3Valid.Length == L3_ENTRIES
    }

    function State(): Break
      reads this
    {
      Break(brk, last)
    }

    /** Whether `sbrk` would hand out `incr` bytes. */
    ghost predicate Grants(incr: nat)
      reads this
    {
      Granted(State(), incr, endPage * PAGE)
    }

    /** The break is in step with the mapped end, or a failed `sbrk` has taken every page. */
    ghost predicate Valid()
      requires Layout()
      reads this, l3Valid
    {
      && brk < WORD_RANGE && brk == brkUnits * UNIT && last == lastPage * PAGE
      && startPage * PAGE_UNITS <= brkUnits && startPage <= mappedPage <= lastPage <= endPage
      && (brk == last ==> mappedPage == lastPage || lastPage == endPage)
      && (brk != last ==> lastPage == endPage)
      && Mapped(mappedPage)
    }

    /** The break is the end of the mapped pages, all of them valid. */
    ghost predicate InStep()
      requires Layout()
      reads this, l3Valid
    {
      Valid() && brk == last && mappedPage == lastPage
    }

    ghost predicate IsValid(page: nat)
      requires Layout()
      reads l3Valid
    {
      table * L3_ENTRIES <= page < (table + 1) * L3_ENTRIES && l3Valid[page - table * L3_ENTRIES]
    }

    /** The pages whose level-3 entry is valid. */
    ghost function ValidPages(): set<nat>
      requires Layout()
      reads l3Valid
    {
      set page: nat | page < (table + 1) * L3_ENTRIES && IsValid(page)
    }

    /** Every heap page below `upto` is valid. */
    ghost predicate Mapped(upto: nat)
      requires Layout() && upto <= endPage
      reads l3Valid
    {
      forall k :: 0 <= k < L3_ENTRIES && startPage <= k + table * L3_ENTRIES < upto ==> l3Valid[k]
    }

    /** The first unit above everything handed out. */
    ghost function Top(): nat
      reads this
    {
      if brkUnits < endPage * PAGE_UNITS then brkUnits else endPage * PAGE_UNITS
    }

    /** Sets the break and the mapped end to the start of the heap. */
    constructor (startPage: nat, endPage: nat, table: nat, l3Valid: array<bool>)
      requires 0 < startPage < endPage && endPage * PAGE < WORD_RANGE
      requires table * L3_ENTRIES <= startPage && endPage <= (table + 1) * L3_ENTRIES
      requires l3Valid.Length == L3_ENTRIES
      ensures Layout() && Valid() && this.startPage == startPage && this.endPage == endPage && this.l3Valid == l3Valid
      ensures State() == Break(startPage * PAGE, startPage * PAGE) && brkUnits == startPage * PAGE_UNITS && InStep()
    {
      this.startPage, this.endPage, this.table, this.l3Valid := startPage, endPage, table, l3Valid;
      brk, prevBrk, last := startPage * PAGE, startPage * PAGE, startPage * PAGE;
      brkUnits, lastPage, mappedPage := startPage * PAGE_UNITS, startPage, startPage;
    }

    /** Marks `npages` pages from `virt` on valid. */
    method HostMemoryMap(virt: nat, npages: nat, ghost page: nat)
      requires Layout() && virt == page * PAGE && startPage <= page && 0 < npages && page + npages <= endPage
      modifies l3Valid
      ensures forall k :: 0 <= k < L3_ENTRIES ==>
        l3Valid[k] == (old(l3Valid[k]) || page <= k + table * L3_ENTRIES < page + npages)
      ensures old(Mapped(page)) ==> Mapped(page + npages)
      ensures ValidPages() == old(ValidPages()) + set k: nat | k < page + npages && From(virt, k)
    {
      L3InBounds(page, npages, table);
      var entry := L3Entry(virt, npages).value;
      var i := 0;
      while i < npages
        invariant i <= npages
        invariant forall k :: 0 <= k < L3_ENTRIES ==> l3Valid[k] == (old(l3Valid[k]) || entry <= k < entry + i)
      {
        l3Valid[entry + i] := true;
        i := i + 1;
      }
      forall k: nat
        ensures IsValid(k) <==> old(IsValid(k)) || page <= k < page + npages
      {
        assert table * L3_ENTRIES <= k < (table + 1) * L3_ENTRIES ==>
            l3Valid[k - table * L3_ENTRIES] == (old(l3Valid[k - table * L3_ENTRIES]) || page <= k < page + npages);
      }
    }

    /** The loop of `sbrk`: takes pages one by one until the 32-bit counter of bytes still
        required reaches 0, which it does only for a page multiple, or until they run out. */
    method TakePages(need: nat) returns (ok: bool, pages: nat)
      requires Layout() && last == lastPage * PAGE && lastPage <= endPage && 0 < need < WORD_RANGE
      modifies this`last, this`lastPage
      ensures last == lastPage * PAGE && lastPage <= endPage
      ensures ok == (need % PAGE == 0 && old(last) + need <= endPage * PAGE)
      ensures ok ==> pages > 0 && pages * PAGE == need && lastPage == old(lastPage) + pages
      ensures !ok ==> lastPage == endPage
    {
      var required := need;
      pages := 0;
      while required > 0
        invariant last == lastPage * PAGE && lastPage == old(lastPage) + pages <= endPage
        invariant required == (need - pages * PAGE) % WORD_RANGE
        invariant need % PAGE == 0 ==> need >= pages * PAGE
        decreases endPage - lastPage
      {
        if last + PAGE > endPage * PAGE {
          return false, pages;
        }
        CounterStep(need, pages);
        last := last + PAGE;
        lastPage := lastPage + 1;
        pages := pages + 1;
        required := (required - PAGE) % WORD_RANGE;
      }
      CounterZero(need, pages);
      return true, pages;
    }

    /** Maps the pages that the break, moved past the mapped end from `virt`, gains; or fails, all pages taken. */
    method Extend(virt: nat) returns (ok: bool)
      requires Layout() && last == lastPage * PAGE && startPage <= mappedPage <= lastPage <= endPage
      requires last < brk < WORD_RANGE
      requires (virt == last && mappedPage == lastPage) || lastPage == endPage
      requires Mapped(mappedPage)
      modifies this`last, this`lastPage, this`mappedPage, l3Valid
      ensures last == lastPage * PAGE && startPage <= mappedPage <= lastPage <= endPage && Mapped(mappedPage)
      ensures ok == ((brk - old(last)) % PAGE == 0 && brk <= endPage * PAGE)
      ensures ok ==> last == brk && mappedPage == lastPage
      ensures !ok ==> lastPage == endPage && mappedPage == old(mappedPage)
      ensures ValidPages() == old(ValidPages()) +
        if ok then set k: nat | k < virt / PAGE + (brk - old(last)) / PAGE && From(virt, k) else {}
    {
      ghost var page := lastPage;
      var requiredPages;
      ok, requiredPages := TakePages(brk - last);
      if ok {
        assert virt == page * PAGE;
        HostMemoryMap(virt, requiredPages, page);
        mappedPage := lastPage;
      }
    }

    /** Moves the break by `incr` bytes, mapping the pages gained; -1 when they run out. */
    method Sbrk(incr: nat, ghost units: nat) returns (r: int)
      requires Layout() && Valid() && incr < WORD_RANGE && incr == units * UNIT
      modifies this`brk, this`prevBrk, this`last, this`brkUnits, this`lastPage, this`mappedPage, l3Valid
      ensures State() == After(old(State()), incr, endPage * PAGE)
      ensures r == if old(Grants(incr)) then old(brk) else -1
      ensures old(brk) + incr < WORD_RANGE ==> Valid() && brkUnits == old(brkUnits) + units
      ensures old(brk) + incr < WORD_RANGE && r != -1 ==> brkUnits <= endPage * PAGE_UNITS
      ensures ValidPages() == old(ValidPages()) + Newly(old(State()), incr, endPage * PAGE)
      ensures old(InStep()) && incr % PAGE == 0 && 0 < incr && old(brk) + incr < WORD_RANGE && r != -1 ==>
        InStep() && Mapped(lastPage)
    {
      prevBrk := brk;
      var virt := brk;
      brk := Plus(brk, incr);
      brkUnits := brkUnits + units;
      if brk > last {
        var ok := Extend(virt);
        if !ok {
          return -1;
        }
      }
      return prevBrk;
    }

    /** A run of calls: break, mapped end and valid pages are those of the run on values. */
    method SbrkMany(incrs: seq<nat>, ghost units: seq<nat>) returns (rs: seq<int>)
      requires Layout() && Valid() && |units| == |incrs| && brk + Sum(incrs) < WORD_RANGE
      requires forall i :: 0 <= i < |incrs| ==> incrs[i] == units[i] * UNIT
      modifies this`brk, this`prevBrk, this`last, this`brkUnits, this`lastPage, this`mappedPage, l3Valid
      ensures Valid() && |rs| == |incrs|
      ensures State() == Run(old(State()), incrs, endPage * PAGE)
      ensures ValidPages() == PagesRun(old(State()), old(ValidPages()), incrs, endPage * PAGE)
      ensures AnsweredAs(old(State()), incrs, endPage * PAGE, rs)
    {
      ghost var end := endPage * PAGE;
      ghost var s, v := State(), ValidPages();
      rs := [];
      var i := 0;
      while i < |incrs|
        invariant i == |rs| <= |incrs| && Valid()
        invariant State() == Run(s, incrs[..i], end) && ValidPages() == PagesRun(s, v, incrs[..i], end)
        invariant AnsweredAs(s, incrs, end, rs)
      {
        OneCall(s, v, incrs, end, i);
        var r := Sbrk(incrs[i], units[i]);
        rs := rs + [r];
        i := i + 1;
      }
      assert incrs[..i] == incrs;
    }
  }

  /** What call `i` of a run returns. */
  function Answer(s: Break, incrs: seq<nat>, end: nat, i: nat): int
    requires i < |incrs|
  {
    var t := Run(s, incrs[..i], end);
    if Granted(t, incrs[i], end) then t.brk else -1
  }

  predicate AnsweredAs(s: Break, incrs: seq<nat>, end: nat, rs: seq<int>) {
    |rs| <= |incrs| && forall i :: 0 <= i < |rs| ==> rs[i] == Answer(s, incrs, end, i)
  }

  lemma OneCall(s: Break, v: set<nat>, incrs: seq<nat>, end: nat, i: nat)
    requires i < |incrs| && s.brk + Sum(incrs) < WORD_RANGE
    ensures var t := Run(s, incrs[..i], end);
      && t.brk + incrs[i] < WORD_RANGE && Run(s, incrs[..i + 1], end) == After(t, incrs[i], end)
      && PagesRun(s, v, incrs[..i + 1], end) == PagesRun(s, v, incrs[..i], end) + Newly(t, incrs[i], end)
  {
    SumSnoc(incrs, i);
    RunBreak(s, incrs[..i], end);
    RunMore(s, v, incrs, end, i);
  }
}
