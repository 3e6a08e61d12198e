/** The break of the Hyp heap: 32-bit arithmetic of the page-by-page `sbrk`. */
module HeapBreak {
  import opened Machine

  /** `brk` is the next byte to hand out, `last` the end of the mapped heap. */
  datatype Break = Break(brk: nat, last: nat)

  /** The break is a 32-bit word, and the mapped end a page boundary inside the heap. */
  predicate InRange(s: Break, end: nat) {
    s.brk < WORD_RANGE && s.last <= end && s.last % PAGE == 0
  }

  /** The sum of two words, wrapped at 32 bits. */
  function Plus(a: nat, b: nat): (c: nat)
    ensures a < WORD_RANGE && b < WORD_RANGE ==> c == (a + b) % WORD_RANGE
  {
    if a + b < WORD_RANGE then a + b else a + b - WORD_RANGE
  }

  /** Where the increment moves the break. */
  function Moved(s: Break, incr: nat): nat {
    Plus(s.brk, incr)
  }

  /** Whether `sbrk` hands out the `incr` bytes above the break. */
  predicate Granted(s: Break, incr: nat, end: nat) {
    || Moved(s, incr) <= s.last
    || ((Moved(s, incr) - s.last) % PAGE == 0 && Moved(s, incr) <= end)
  }

  /** The break moves even when the call fails, and a failing call still takes every remaining page. */
  function After(s: Break, incr: nat, end: nat): Break {
    Break(Moved(s, incr),
          if Moved(s, incr) <= s.last then s.last
          else if Granted(s, incr, end) then Moved(s, incr)
          else end)
  }

  function Run(s: Break, incrs: seq<nat>, end: nat): Break
    decreases |incrs|
  {
    if incrs == [] then s else Run(After(s, incrs[0], end), incrs[1..], end)
  }

  function Sum(incrs: seq<nat>): nat {
    if incrs == [] then 0 else incrs[0] + Sum(incrs[1..])
  }

  ghost predicate WholePages(incrs: seq<nat>) {
    forall i :: 0 <= i < |incrs| ==> incrs[i] > 0 && incrs[i] % PAGE == 0
  }

  /** In whole pages and without a wrap, the break counts the bytes asked for, and the
      mapped end follows it up to the end of the heap. */
  lemma {:induction false} WholePageRun(s: Break, incrs: seq<nat>, end: nat)
    requires InRange(s, end) && end % PAGE == 0 && s.last == (if s.brk <= end then s.brk else end)
    requires WholePages(incrs) && s.brk + Sum(incrs) < WORD_RANGE
    ensures var r := Run(s, incrs, end);
      && r.brk == s.brk + Sum(incrs)
      && r.last == if r.brk <= end then r.brk else end
    decreases |incrs|
  {
    if incrs != [] {
      var t := After(s, incrs[0], end);
      assert t.brk == s.brk + incrs[0];
      WholePageRun(t, incrs[1..], end);
    }
  }

  lemma {:induction false} SumSnoc(incrs: seq<nat>, i: nat)
    requires i < |incrs|
    ensures Sum(incrs[..i + 1]) == Sum(incrs[..i]) + incrs[i] <= Sum(incrs)
  {
    assert incrs[..i + 1][1..] == incrs[1..][..i];
    if i > 0 {
      SumSnoc(incrs[1..], i - 1);
      assert incrs[..i][1..] == incrs[1..][..i - 1];
    }
  }

  /** In a run of whole-page requests without a wrap, each one is granted exactly when the
      total asked for so far, its own included, fits below the end; so once one fails, all do. */
  lemma GrantsExactlyWhileFitting(s: Break, incrs: seq<nat>, end: nat, i: nat)
    requires InRange(s, end) && end % PAGE == 0 && s.brk == s.last
    requires WholePages(incrs) && s.brk + Sum(incrs) < WORD_RANGE && i < |incrs|
    ensures Granted(Run(s, incrs[..i], end), incrs[i], end) <==> s.brk + Sum(incrs[..i + 1]) <= end
  {
    SumSnoc(incrs, i);
    WholePageRun(s, incrs[..i], end);
    WholePageGrant(Run(s, incrs[..i], end), incrs[i], end);
  }

  lemma WholePageGrant(t: Break, incr: nat, end: nat)
    requires t.last == (if t.brk <= end then t.brk else end)
    requires incr > 0 && incr % PAGE == 0 && t.brk + incr < WORD_RANGE
    ensures Granted(t, incr, end) <==> t.brk + incr <= end
  {
    assert Moved(t, incr) == t.brk + incr;
    assert t.brk <= end ==> Moved(t, incr) - t.last == incr;
  }

  /** From a break in step, an increment without wrap is granted exactly when it is whole
      pages and fits: any other positive increment fails, and takes the whole heap with it. */
  lemma GrantedExactly(s: Break, incr: nat, end: nat)
    requires InRange(s, end) && s.brk == s.last && 0 < incr && s.brk + incr < WORD_RANGE
    ensures Granted(s, incr, end) <==> incr % PAGE == 0 && s.brk + incr <= end
    ensures !Granted(s, incr, end) ==> After(s, incr, end).last == end
  {
  }

  /** What is granted lies inside the heap exactly when the break does not wrap. */
  lemma GrantInsideHeap(s: Break, incr: nat, end: nat)
    requires InRange(s, end) && end < WORD_RANGE && incr < WORD_RANGE && Granted(s, incr, end)
    ensures s.brk + incr <= end <==> s.brk + incr < WORD_RANGE
  {
  }

  /** On the RTSM board the first request for 0x0E000000 bytes wraps, is granted, and overruns the heap. */
  lemma WrapOverrunsHeap()
    ensures var s := Break(0xF200_0000, 0xF200_0000);
      Granted(s, 0x0E00_0000, 0xFF00_0000) && s.brk + 0x0E00_0000 > 0xFF00_0000
  {
  }

  // ---------------------------------------------------------------- mapped pages

  /** The pages a call marks valid: as many as the mapped end moves by, from the old break on. */
  function Newly(s: Break, incr: nat, end: nat): set<nat> {
    if Moved(s, incr) > s.last && Granted(s, incr, end)
    then set k: nat | k < s.brk / PAGE + (Moved(s, incr) - s.last) / PAGE && From(s.brk, k)
    else {}
  }

  predicate From(brk: nat, k: nat) {
    brk / PAGE <= k
  }

  /** The valid pages after a run of calls. */
  function PagesRun(s: Break, valid: set<nat>, incrs: seq<nat>, end: nat): set<nat>
    decreases |incrs|
  {
    if incrs == [] then valid
    else PagesRun(After(s, incrs[0], end), valid + Newly(s, incrs[0], end), incrs[1..], end)
  }

  /** One call more. */
  lemma {:induction false} RunMore(s: Break, valid: set<nat>, incrs: seq<nat>, end: nat, i: nat)
    requires i < |incrs|
    ensures Run(s, incrs[..i + 1], end) == After(Run(s, incrs[..i], end), incrs[i], end)
    ensures PagesRun(s, valid, incrs[..i + 1], end) ==
      PagesRun(s, valid, incrs[..i], end) + Newly(Run(s, incrs[..i], end), incrs[i], end)
    decreases i
  {
    assert incrs[..i + 1][1..] == incrs[1..][..i];
    if i == 0 {
      assert PagesRun(s, valid, incrs[..0], end) == valid;
    } else {
      assert incrs[..i][1..] == incrs[1..][..i - 1];
      RunMore(After(s, incrs[0], end), valid + Newly(s, incrs[0], end), incrs[1..], end, i - 1);
    }
  }

  /** Without a wrap the break counts the bytes asked for. */
  lemma {:induction false} RunBreak(s: Break, incrs: seq<nat>, end: nat)
    requires s.brk + Sum(incrs) < WORD_RANGE
    ensures Run(s, incrs, end).brk == s.brk + Sum(incrs)
    decreases |incrs|
  {
    if incrs != [] {
      RunBreak(After(s, incrs[0], end), incrs[1..], end);
    }
  }

  /** Page `k` holds one of the `incr` bytes from `brk` on. */
  predicate Touched(brk: nat, incr: nat, k: nat) {
    k * PAGE < brk + incr && brk < (k + 1) * PAGE
  }

  /** Every page of the block granted is valid. */
  ghost predicate Backed(brk: nat, incr: nat, valid: set<nat>) {
    forall k: nat :: Touched(brk, incr, k) ==> k in valid
  }

  /** Every increment is a whole number of pages. */
  predicate AllWhole(incrs: seq<nat>) {
    incrs != [] ==> incrs[0] % PAGE == 0 && AllWhole(incrs[1..])
  }

  lemma {:induction false} AllWholeAt(incrs: seq<nat>)
    ensures AllWhole(incrs) <==> forall i :: 0 <= i < |incrs| ==> incrs[i] % PAGE == 0
  {
    if incrs != [] {
      AllWholeAt(incrs[1..]);
      assert forall i :: 0 < i < |incrs| ==> incrs[i] == incrs[1..][i - 1];
    }
  }

  /** No valid page reaches past the break. */
  ghost predicate NoneAbove(valid: set<nat>, brk: nat) {
    forall k :: k in valid ==> (k + 1) * PAGE <= brk
  }

  /** The phases of a heap whose break does not wrap: past the end; in step, while all increments were whole pages; or,
      once a partial page was asked for, with no page left to map. */
  predicate Phase(s: Break, end: nat, partial: bool) {
    || s.brk > end == s.last
    || (!partial && s.brk == s.last)
    || (partial && s.last == end)
  }

  lemma PhaseStep(s: Break, valid: set<nat>, incr: nat, end: nat, partial: bool)
    requires InRange(s, end) && end % PAGE == 0 && Phase(s, end, partial) && NoneAbove(valid, s.brk)
    requires s.brk + incr < WORD_RANGE
    ensures var t := After(s, incr, end);
      && InRange(t, end) && Phase(t, end, partial || incr % PAGE != 0)
      && NoneAbove(valid + Newly(s, incr, end), t.brk)
  {
    if incr > 0 && s.brk == s.last {
      GrantedExactly(s, incr, end);
    }
  }

  /** Of a positive increment that is granted, every page is valid exactly when all earlier ones were whole pages;
      otherwise none of its pages is. */
  lemma BackedExactly(s: Break, valid: set<nat>, incr: nat, end: nat, partial: bool)
    requires InRange(s, end) && end % PAGE == 0 && Phase(s, end, partial) && NoneAbove(valid, s.brk)
    requires 0 < incr && s.brk + incr < WORD_RANGE && Granted(s, incr, end)
    ensures Backed(s.brk, incr, valid + Newly(s, incr, end)) <==> !partial
    ensures partial ==> forall k: nat :: Touched(s.brk, incr, k) ==> k !in valid + Newly(s, incr, end)
    ensures !partial ==> incr % PAGE == 0
  {
    assert Touched(s.brk, incr, s.brk / PAGE);
    if !partial {
      GrantedExactly(s, incr, end);
      forall k: nat | Touched(s.brk, incr, k)
        ensures k in Newly(s, incr, end)
      {
        assert From(s.brk, k);
      }
    }
  }

  /**
   * In a run from a break in step, no page above it valid yet, a granted block has all its pages mapped exactly when
   * every earlier increment was a whole number of pages.
   */
  lemma RunBackedExactly(s: Break, valid: set<nat>, incrs: seq<nat>, end: nat, i: nat)
    requires InRange(s, end) && end % PAGE == 0 && s.brk == s.last && NoneAbove(valid, s.brk)
    requires i < |incrs| && incrs[i] > 0 && s.brk + Sum(incrs) < WORD_RANGE
    requires Granted(Run(s, incrs[..i], end), incrs[i], end)
    ensures Backed(Run(s, incrs[..i], end).brk, incrs[i], PagesRun(s, valid, incrs[..i + 1], end))
        <==> forall j :: 0 <= j < i ==> incrs[j] % PAGE == 0
  {
    RunBackedFrom(s, valid, incrs, end, i, false);
    AllWholeAt(incrs[..i]);
    assert forall j :: 0 <= j < i ==> incrs[..i][j] == incrs[j];
  }

  /** The same from any phase. */
  lemma {:induction false} RunBackedFrom(s: Break, valid: set<nat>, incrs: seq<nat>, end: nat, i: nat, partial: bool)
    requires InRange(s, end) && end % PAGE == 0 && Phase(s, end, partial) && NoneAbove(valid, s.brk)
    requires i < |incrs| && incrs[i] > 0 && s.brk + Sum(incrs) < WORD_RANGE
    requires Granted(Run(s, incrs[..i], end), incrs[i], end)
    ensures Backed(Run(s, incrs[..i], end).brk, incrs[i], PagesRun(s, valid, incrs[..i + 1], end))
        <==> !partial && AllWhole(incrs[..i])
    decreases i
  {
    var t, v := After(s, incrs[0], end), valid + Newly(s, incrs[0], end);
    assert incrs[..i + 1][1..] == incrs[1..][..i];
    if i == 0 {
      assert PagesRun(s, valid, incrs[..1], end) == v;
      BackedExactly(s, valid, incrs[0], end, partial);
    } else {
      PhaseStep(s, valid, incrs[0], end, partial);
      assert incrs[..i][1..] == incrs[1..][..i - 1];
      RunBackedFrom(t, v, incrs[1..], end, i - 1, partial || incrs[0] % PAGE != 0);
    }
  }

  /** A first request of 8200 bytes is refused on an empty heap, yet a following one of 8192 is granted, though no page
      of it, nor of the heap, has been mapped. */
  lemma OddRequestBurnsHeap()
    ensures var s, end := Break(0xF200_0000, 0xF200_0000), 0xFF00_0000;
      var t := After(s, 8200, end);
      && !Granted(s, 8200, end) && t == Break(0xF200_2008, end)
      && Granted(t, 8192, end) && PagesRun(s, {}, [8200, 8192], end) == {}
      && !Backed(t.brk, 8192, {})
  {
    var s, end := Break(0xF200_0000, 0xF200_0000), 0xFF00_0000;
    var t := After(s, 8200, end);
    assert [8200, 8192][1..] == [8192];
    assert PagesRun(s, {}, [8200, 8192], end) == PagesRun(t, {}, [8192], end)
      == PagesRun(After(t, 8192, end), {}, [], end);
    assert Touched(t.brk, 8192, t.brk / PAGE);
  }
}
