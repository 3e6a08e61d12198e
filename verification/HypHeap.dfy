/** The Hyp-mode heap of memory_hw.c: a first-fit allocator over a circular,
    address-ordered free list threaded through the heap, which grows by `sbrk`.
    Addresses of headers are counted in 8-byte units, the break in bytes. */
module HypHeap {
  import opened FreeList
  import opened HeapBacking
  import opened HeapBreak
  import opened HeapPages
  import opened Machine

  const NALLOC := 1024

  datatype Header = Header(ptr: nat, size: nat)

  /** `mem` holds the circular list `c`: every node links to the next, the last to the anchor. */
  ghost predicate Linked(mem: seq<Header>, c: seq<Block>) {
    forall i: nat :: i < |c| ==> LinkedAt(mem, c, i)
  }

  /** Node `k` of `c` is correctly linked in `mem`. */
  predicate LinkedAt(mem: seq<Header>, c: seq<Block>, k: nat)
    requires k < |c|
  {
    c[k].addr < |mem| && mem[c[k].addr] == Header(Next(c, k), c[k].size)
  }

  ghost predicate Allocated(live: map<nat, nat>, unit: nat) {
    exists b :: b in live && Block(b, live[b]).Holds(unit)
  }

  /** The allocated block at `b` lies in the heap, has its size in its header, and overlaps nothing else. */
  ghost predicate LiveOk(mem: seq<Header>, c: seq<Block>, live: map<nat, nat>, b: nat, lo: nat, hi: nat)
    requires b in live
  {
    && live[b] > 0 && lo <= b && b + live[b] <= hi
    && b < |mem| && mem[b].size == live[b]
    && Apart(c, Block(b, live[b]))
  }

  /** Free and allocated blocks are pairwise disjoint and lie between `lo` and `hi`. */
  ghost predicate Disjoint(mem: seq<Header>, c: seq<Block>, live: map<nat, nat>, lo: nat, hi: nat) {
    && Within(c, lo, hi)
    && (forall b :: b in live ==> LiveOk(mem, c, live, b, lo, hi))
    && (forall b, b' {:trigger Clear(Block(b, live[b]), Block(b', live[b']))} ::
          b in live && b' in live && b != b' ==> Clear(Block(b, live[b]), Block(b', live[b'])))
  }

  /** Together the free and allocated blocks are exactly the units in `granted`. */
  ghost predicate Partition(granted: set<nat>, c: seq<Block>, live: map<nat, nat>) {
    forall u: nat :: u in granted <==> Covers(c, u) || Allocated(live, u)
  }

  /** Header units plus one unit for the header itself, in 32-bit arithmetic. */
  function Units(size: nat): nat {
    (size + UNIT - 1) % WORD_RANGE / UNIT + 1
  }

  function Larger(units: nat): nat {
    if units < NALLOC then NALLOC else units
  }

  /** For every size a request either is refused for having fewer than two units, which
      is exactly when it is empty or so large that rounding wraps, or has room for its payload. */
  lemma UnitsCover(size: nat)
    requires size < WORD_RANGE
    ensures Units(size) < 2 <==> size == 0 || size > WORD_RANGE - UNIT
    ensures Units(size) >= 2 ==> size <= (Units(size) - 1) * UNIT < size + UNIT
  {
    if size + UNIT - 1 >= WORD_RANGE {
      assert (size + UNIT - 1) % WORD_RANGE < UNIT;
    }
  }

  lemma UnitsNumber(size: nat)
    requires size < WORD_RANGE
    ensures if 0 < size <= 0xffff_fff8 then Units(size) == (size + 7) / 8 + 1 >= 2 else Units(size) < 2
    ensures (size + 7) / 8 + 1 <= 1024 <==> size <= 8184
  {
    UnitsCover(size);
  }

  /** What a growth for `n` units asks for, and from a break in step when it is granted. */
  lemma GrowthNumber(s: Break, n: nat, end: nat)
    requires 2 <= n && InRange(s, end) && end % PAGE == 0 && s.brk + Larger(n) * UNIT < WORD_RANGE
    ensures Larger(n) * UNIT == if n <= 1024 then 0x2000 else 8 * n
    ensures s.brk == s.last && n <= 1024 ==> (Granted(s, Larger(n) * UNIT, end) <==> s.brk + 0x2000 <= end)
    ensures s.brk == s.last && n > 1024 ==>
      (Granted(s, Larger(n) * UNIT, end) <==> n % 512 == 0 && s.brk + 8 * n <= end)
  {
    var bytes := Larger(n) * UNIT;
    if s.brk == s.last {
      GrantedExactly(s, bytes, end);
      if n > 1024 {
        UnitPages(n, bytes);
      }
    }
  }

  lemma UnitPages(n: nat, bytes: nat)
    requires bytes == 8 * n
    ensures bytes % 0x1000 == 0 <==> n % 512 == 0
  {
    var k, r := n / 512, n % 512;
    assert bytes == 0x1000 * k + 8 * r && 8 * r < 0x1000;
  }

  /** The bytes a growth for `size` asks of `sbrk`: the product of units and their size wraps. */
  function GrowthBytes(size: nat): nat {
    Larger(Units(size)) * UNIT % WORD_RANGE
  }

  /** When the growth for a request is granted, the block it adds lies inside the heap exactly when neither the byte
      count nor the break wraps. */
  lemma GrowthInside(s: Break, size: nat, end: nat)
    requires InRange(s, end) && end < WORD_RANGE && size < WORD_RANGE && Granted(s, GrowthBytes(size), end)
    ensures s.brk + Larger(Units(size)) * UNIT <= end <==> s.brk + Larger(Units(size)) * UNIT < WORD_RANGE
  {
    BytesOf(Larger(Units(size)));
    if Larger(Units(size)) * UNIT < WORD_RANGE {
      GrantInsideHeap(s, Larger(Units(size)) * UNIT, end);
    }
  }

  lemma BytesOf(units: nat)
    requires units <= WORD_RANGE / UNIT
    ensures units * UNIT % WORD_RANGE == if units * UNIT < WORD_RANGE then units * UNIT else 0
  {
  }

  /** The byte count wraps for the eight largest sizes that are not refused, and only for them: it is then
      zero, which is granted while the break is not past the mapped end. */
  lemma CountWraps(s: Break, size: nat, end: nat)
    requires size < WORD_RANGE && s.brk <= s.last && s.brk < WORD_RANGE
    ensures Larger(Units(size)) * UNIT >= WORD_RANGE <==> WORD_RANGE - 15 <= size <= WORD_RANGE - 8
    ensures Larger(Units(size)) * UNIT >= WORD_RANGE ==> GrowthBytes(size) == 0 && Granted(s, GrowthBytes(size), end)
  {
    if size + UNIT - 1 >= WORD_RANGE {
      assert (size + UNIT - 1) % WORD_RANGE < UNIT;
    }
  }

  lemma FindNode(c: seq<Block>, b: Block) returns (j: nat)
    requires Canonical(c) && Apart(c, b) && c[0].addr < b.addr && b.size > 0
    ensures FitsAfter(c, j, b)
  {
    j := 0;
    while j + 1 < |c| && c[j + 1].addr < b.addr
      invariant j < |c| && c[j].addr < b.addr
    {
      j := j + 1;
    }
    assert j > 0 ==> c[j].size > 0;
  }

  /** `m'` differs from `m` at most in the headers at `x` and `y`. */
  ghost predicate SameBut(m: seq<Header>, m': seq<Header>, x: nat, y: nat) {
    |m'| == |m| && forall a :: 0 <= a < |m| && a != x && a != y ==> m'[a] == m[a]
  }

  lemma LinkedAfterRelease(m: seq<Header>, m': seq<Header>, c: seq<Block>, j: nat, b: Block)
    requires Canonical(c) && Linked(m, c) && FitsAfter(c, j, b) && b.size > 0 && b.addr < |m|
    requires SameBut(m, m', b.addr, c[j].addr)
    requires ReleaseWritten(m', c, j, b)
    ensures Linked(m', Release(c, j, b)) && Canonical(Release(c, j, b)) && Release(c, j, b)[0] == c[0]
    ensures j < |Release(c, j, b)| && Release(c, j, b)[j].addr == c[j].addr
  {
    var d, at, shift := Release(c, j, b), JoinIndex(c, j, b), Shift(c, j, b);
    forall k: nat | k < |d|
      ensures LinkedAt(m', d, k)
    {
      if k < j {
        KeptLow(m, m', c, j, b, k);
      } else if k > at {
        KeptHigh(m, m', c, j, b, k - shift);
      } else if k == at {
        JoinedLinked(m', c, j, b);
      } else {
        assert d[k] == c[j] && Next(d, k) == d[at].addr;
      }
    }
    ReleaseCanonical(c, j, b);
  }

  /** What `free` leaves in the two headers it writes. */
  predicate ReleaseWritten(m': seq<Header>, c: seq<Block>, j: nat, b: Block)
    requires j < |c|
  {
    && c[j].addr < |m'| && b.addr < |m'|
    && var own := if JoinsUp(c, j, b) then Header(Next(c, j + 1), b.size + c[j + 1].size)
                  else Header(Next(c, j), b.size);
       if c[j].End() == b.addr then m'[c[j].addr] == Header(own.ptr, c[j].size + own.size)
       else m'[c[j].addr] == Header(b.addr, c[j].size) && m'[b.addr] == own
  }

  lemma KeptLow(m: seq<Header>, m': seq<Header>, c: seq<Block>, j: nat, b: Block, k: nat)
    requires Canonical(c) && FitsAfter(c, j, b) && SameBut(m, m', b.addr, c[j].addr)
    requires k < j && LinkedAt(m, c, k)
    ensures LinkedAt(m', Release(c, j, b), k)
  {
    var d := Release(c, j, b);
    assert Below(c[k], c[j]);
    assert d[k] == c[k] && d[k + 1].addr == c[k + 1].addr;
  }

  lemma KeptHigh(m: seq<Header>, m': seq<Header>, c: seq<Block>, j: nat, b: Block, k: nat)
    requires Canonical(c) && FitsAfter(c, j, b) && SameBut(m, m', b.addr, c[j].addr) && b.size > 0
    requires j < k < |c| && (k == j + 1 ==> !JoinsUp(c, j, b)) && LinkedAt(m, c, k)
    ensures LinkedAt(m', Release(c, j, b), k + Shift(c, j, b))
  {
    assert Below(c[j], c[k]) && b.addr < c[k].addr by {
      JoinedApart(c, j, b);
    }
    HighNode(c, j, b, k);
    LinkMoved(m, m', c, k, Release(c, j, b), k + Shift(c, j, b), b.addr, c[j].addr);
  }

  /** Where the nodes above the released block come to stand. */
  lemma HighNode(c: seq<Block>, j: nat, b: Block, k: nat)
    requires j < k < |c| && (k == j + 1 ==> !JoinsUp(c, j, b))
    ensures var d, k' := Release(c, j, b), k + Shift(c, j, b);
      && 0 <= k' < |d| && d[k'] == c[k] && d[0].addr == c[0].addr && (k + 1 < |c| <==> k' + 1 < |d|)
      && (k + 1 < |c| ==> d[k' + 1] == c[k + 1])
  {
  }

  /** A node whose header was not written links as before, wherever it stands. */
  lemma LinkMoved(m: seq<Header>, m': seq<Header>, c: seq<Block>, k: nat, d: seq<Block>, k': nat, x: nat, y: nat)
    requires k < |c| && LinkedAt(m, c, k) && SameBut(m, m', x, y) && c[k].addr != x && c[k].addr != y
    requires k' < |d| && d[k'] == c[k] && d[0].addr == c[0].addr && (k + 1 < |c| <==> k' + 1 < |d|)
    requires k + 1 < |c| ==> d[k' + 1] == c[k + 1]
    ensures LinkedAt(m', d, k')
  {
  }

  lemma JoinedLinked(m': seq<Header>, c: seq<Block>, j: nat, b: Block)
    requires Canonical(c) && FitsAfter(c, j, b) && b.size > 0 && ReleaseWritten(m', c, j, b)
    ensures LinkedAt(m', Release(c, j, b), JoinIndex(c, j, b))
  {
    var d, at, shift := Release(c, j, b), JoinIndex(c, j, b), Shift(c, j, b);
    JoinedApart(c, j, b);
    assert d[at] == Joined(c, j, b) && d[0] == c[0];
    var n := if JoinsUp(c, j, b) then j + 2 else j + 1;
    assert at + 1 - shift == n;
    assert n < |c| ==> d[at + 1] == c[n];
  }

  lemma LinkedAfterUnlink(m: seq<Header>, m': seq<Header>, c: seq<Block>, i: nat)
    requires Canonical(c) && Linked(m, c) && 0 < i < |c|
    requires c[i - 1].addr < |m| && SameBut(m, m', c[i - 1].addr, c[i - 1].addr)
    requires m'[c[i - 1].addr] == Header(Next(c, i), c[i - 1].size)
    ensures Linked(m', Carve(c, i, c[i].size))
  {
    forall k: nat | k < |c| - 1
      ensures LinkedAt(m', Carve(c, i, c[i].size), k)
    {
      var k' := if k < i then k else k + 1;
      assert LinkedAt(m, c, k');
      assert k' < i - 1 ==> Below(c[k'], c[i - 1]);
      assert k' > i ==> Below(c[i - 1], c[k']);
      UnlinkAt(m, m', c, i, k');
    }
  }

  lemma UnlinkAt(m: seq<Header>, m': seq<Header>, c: seq<Block>, i: nat, k: nat)
    requires 0 < i < |c| && k < |c| && k != i && LinkedAt(m, c, k)
    requires k != i - 1 ==> c[k].addr != c[i - 1].addr
    requires c[i - 1].addr < |m| && SameBut(m, m', c[i - 1].addr, c[i - 1].addr)
    requires m'[c[i - 1].addr] == Header(Next(c, i), c[i - 1].size)
    ensures LinkedAt(m', Carve(c, i, c[i].size), if k < i then k else k - 1)
  {
    var d := Carve(c, i, c[i].size);
    assert d[0] == c[0];
    if k < i {
      assert d[k] == c[k];
      assert Next(d, k) == if k == i - 1 then Next(c, i) else Next(c, k);
    } else {
      assert d[k - 1] == c[k] && Next(d, k - 1) == Next(c, k);
    }
  }

  lemma LinkedAfterSplit(m: seq<Header>, m': seq<Header>, c: seq<Block>, i: nat, units: nat)
    requires Canonical(c) && Linked(m, c) && 0 < i < |c| && 0 < units < c[i].size
    requires SameBut(m, m', c[i].addr, c[i].End() - units) && c[i].addr < |m|
    requires m'[c[i].addr] == Header(Next(c, i), c[i].size - units)
    ensures Linked(m', Carve(c, i, units))
  {
    var d := Carve(c, i, units);
    forall k: nat | k < |d|
      ensures LinkedAt(m', d, k)
    {
      assert LinkedAt(m, c, k) && Next(d, k) == Next(c, k) && d[k].addr == c[k].addr;
      if k < i {
        assert Below(c[k], c[i]);
      } else if k > i {
        assert Below(c[i], c[k]);
      }
    }
  }

  class Heap {
    const pages: Pages              // the break and the mapped pages behind sbrk
    const anchor: nat               // unit address of freep_base
    const mem: array<Header>        // block headers, by unit address
    var freep: nat                  // 0 until the first malloc

    ghost var chain: seq<Block>     // the circular list from the anchor on
    ghost var at: nat               // index in chain of the node freep points to
    ghost var live: map<nat, nat>   // allocated blocks: header address to units
    ghost var granted: set<nat>     // units obtained from sbrk
    /** The units granted before any growth asked for a partial page, and whether one did. */
    ghost var backed: set<nat>
    ghost var partial: bool

    ghost predicate Layout() {
      && pages.Layout() && 0 < anchor < Start() && mem.Length == pages.endPage * PAGE_UNITS
    }

    /** The first unit of the heap. */
    ghost function Start(): nat {
      pages.startPage * PAGE_UNITS
    }

    /** The free list: circular through the anchor, address-ordered, coalesced. */
    ghost predicate ListOk()
      reads this`freep, this`chain, this`at, this`live, mem
    {
      && Canonical(chain) && chain[0] == Block(anchor, 0) && at < |chain|
      && (freep == 0 ==> |chain| == 1 && live == map[])
      && (freep != 0 ==> freep == chain[at].addr && Linked(mem[..], chain))
    }

    ghost predicate Valid()
      requires Layout()
      reads this`freep, this`chain, this`at, this`live, this`granted, mem, pages, pages.l3Valid
    {
      && pages.Valid() && ListOk()
      && Disjoint(mem[..], chain, live, Start(), pages.Top())
      && Partition(granted, chain, live)
    }

    /** Of the units granted, exactly those in `backed` lie in valid pages. */
    ghost predicate Backing()
      requires Layout()
      reads this`granted, this`backed, this`partial, pages, pages.l3Valid
    {
      Backs(pages.State(), pages.ValidPages(), granted, backed, partial, pages.endPage * PAGE)
    }

    /** The heap before the first request: no list yet, nothing obtained from `sbrk`. */
    constructor (pages: Pages, anchor: nat, mem: array<Header>)
      requires pages.Layout() && pages.Valid()
      requires 0 < anchor < pages.startPage * PAGE_UNITS && mem.Length == pages.endPage * PAGE_UNITS
      ensures Layout() && Valid() && this.pages == pages && this.mem == mem
      ensures freep == 0 && chain == [Block(anchor, 0)] && live == map[] && granted == {} && backed == {} && !partial
      ensures pages.InStep() && NoneAbove(pages.ValidPages(), pages.brk) ==> Backing()
    {
      this.pages, this.anchor, this.mem, freep := pages, anchor, mem, 0;
      chain, at, live, granted := [Block(anchor, 0)], 0, map[], {};
      backed, partial := {}, false;
    }

    /** The search loop of `free`: walks round from `freep` to the node `bp` belongs behind. */
    method Locate(bp: nat) returns (p: nat, ghost j: nat)
      requires Layout() && ListOk() && freep != 0
      requires bp < mem.Length && mem[bp].size > 0 && anchor < bp && Apart(chain, Block(bp, mem[bp].size))
      ensures FitsAfter(chain, j, Block(bp, mem[bp].size)) && p == chain[j].addr
    {
      ghost var b, m := Block(bp, mem[bp].size), mem[..];
      j := FindNode(chain, b);
      p := freep;
      ghost var k: nat := at;
      assert LinkedAt(m, chain, k);
      while !(bp > p && bp < mem[p].ptr)
        invariant mem[..] == m && k < |chain| && p == chain[k].addr && LinkedAt(m, chain, k)
        decreases if k <= j then j - k else j + |chain| - k
      {
        SlotOrder(chain, b, j, k);
        if p >= mem[p].ptr && (bp > p || bp < mem[p].ptr) {
          break;
        }
        p := mem[p].ptr;
        k := Around(k, 1, |chain|);
        assert LinkedAt(m, chain, k);
      }
      SlotFound(chain, b, j, k);
    }

    /** The two joins of `free`, written into the headers at `bp` and `p`. */
    method Relink(bp: nat, p: nat, ghost j: nat)
      requires bp < mem.Length && p < mem.Length && j < |chain| && p == chain[j].addr && p != bp
      requires LinkedAt(mem[..], chain, j)
      requires bp + mem[bp].size == Next(chain, j) <==> JoinsUp(chain, j, Block(bp, mem[bp].size))
      requires JoinsUp(chain, j, Block(bp, mem[bp].size)) ==>
        LinkedAt(mem[..], chain, j + 1) && Next(chain, j) != bp && Next(chain, j) != p
      modifies mem
      ensures ReleaseWritten(mem[..], chain, j, Block(bp, old(mem[bp].size)))
      ensures SameBut(old(mem[..]), mem[..], bp, p)
    {
      if bp + mem[bp].size == mem[p].ptr {
        mem[bp] := Header(mem[mem[p].ptr].ptr, mem[bp].size + mem[mem[p].ptr].size);
      } else {
        mem[bp] := Header(mem[p].ptr, mem[bp].size);
      }
      if p + mem[p].size == bp {
        mem[p] := Header(mem[bp].ptr, mem[p].size + mem[bp].size);
      } else {
        mem[p] := Header(bp, mem[p].size);
      }
    }

    /** `free`: links the block whose header sits just below `ap` back into the list,
        joining it to the neighbours it touches, and leaves `freep` at the node below it. */
    method HostMemoryFree(ap: nat) returns (ghost j: nat)
      requires Layout() && ListOk() && freep != 0
      requires 0 < ap <= mem.Length && mem[ap - 1].size > 0 && anchor < ap - 1
      requires Apart(chain, Block(ap - 1, mem[ap - 1].size))
      modifies this`freep, this`chain, this`at, mem
      ensures ListOk() && freep != 0 && at == j
      ensures FitsAfter(old(chain), j, Block(ap - 1, old(mem[ap - 1].size)))
      ensures chain == Release(old(chain), j, Block(ap - 1, old(mem[ap - 1].size)))
      ensures SameBut(old(mem[..]), mem[..], ap - 1, old(chain)[j].addr)
    {
      var bp := ap - 1;
      ghost var b, m := Block(bp, mem[bp].size), mem[..];
      var p;
      p, j := Locate(bp);
      JoinTests(chain, j, b);
      assert LinkedAt(m, chain, j) && (JoinsUp(chain, j, b) ==> LinkedAt(m, chain, j + 1));
      Relink(bp, p, j);
      freep := p;
      LinkedAfterRelease(m, mem[..], chain, j, b);
      chain := Release(chain, j, b);
      at := j;
      AnchorLowest(chain, at);
    }

    /** Gives an allocated block back (memory_hw_free). */
    method Free(ap: nat) returns (ghost j: nat)
      requires Layout() && Valid() && ap > 0 && ap - 1 in live
      modifies this`freep, this`chain, this`at, this`live, mem
      ensures Valid() == true && (old(Backing()) ==> Backing() == true)
      ensures live == old(live) - {ap - 1}
      ensures FitsAfter(old(chain), j, Block(ap - 1, old(live)[ap - 1]))
      ensures chain == Release(old(chain), j, Block(ap - 1, old(live)[ap - 1]))
    {
      ghost var c, m := chain, mem[..];
      ghost var l: map<nat, nat> := live;
      ghost var a: nat := ap - 1;
      assert LiveOk(m, c, l, a, Start(), pages.Top());
      j := HostMemoryFree(ap);
      live := l - {a};
      FreeKeeps(m, mem[..], c, j, l, a, Start(), pages.Top());
      PartitionAfterFree(granted, c, j, l, a);
    }

    /** Gives the fresh block at `up` a header and frees it into the list. */
    method AddBlock(up: nat, units: nat, ghost top: nat) returns (ghost j: nat)
      requires Layout() && ListOk() && freep != 0 && 0 < units && up + units <= pages.Top()
        && top <= up && Start() <= up
      requires Disjoint(mem[..], chain, live, Start(), top) && Partition(granted, chain, live)
      modifies this`freep, this`chain, this`at, this`granted, mem
      ensures ListOk() && freep != 0 && at == j == |old(chain)| - 1
      ensures FitsAfter(old(chain), j, Block(up, units)) && chain == Release(old(chain), j, Block(up, units))
      ensures granted == old(granted) + Span(Block(up, units))
      ensures Disjoint(mem[..], chain, live, Start(), pages.Top()) && Partition(granted, chain, live)
    {
      ghost var b, c, m := Block(up, units), chain, mem[..];
      mem[up] := Header(mem[up].ptr, units);
      NewBlockOnTop(m, mem[..], c, Start(), top, b);
      j := HostMemoryFree(up + 1);
      granted := granted + Span(b);
      DisjointGrown(m, mem[..], c, live, Start(), top, pages.Top(), j, b);
      PartitionGrown(old(granted), c, live, j, b);
    }

    /** Asks `sbrk` for a block of at least `nu` units and adds it to the list. */
    method Morecore(nu: nat) returns (p: nat)
      requires Layout() && Valid() && freep != 0 && 0 < nu && pages.brk + Larger(nu) * UNIT < WORD_RANGE
      modifies pages, this`freep, this`chain, this`at, this`granted, this`backed, this`partial, mem, pages.l3Valid
      ensures Valid() == true && freep != 0
      ensures p != 0 <==> old(pages.Grants(Larger(nu) * UNIT))
      ensures pages.brk == old(pages.brk) + Larger(nu) * UNIT
      ensures p == 0 ==> chain == old(chain) && at == old(at) && granted == old(granted)
      ensures p != 0 ==>
        var b := Block(old(pages.brkUnits), Larger(nu));
        p == freep && at == |old(chain)| - 1 && Extends(old(chain), b, chain) && granted == old(granted) + Span(b)
      ensures Booked(old(backed), old(partial), Block(old(pages.brkUnits), Larger(nu)), p != 0) == true
      ensures old(Backing()) ==> Backing() == true
    {
      ghost var s, v, g, b := pages.State(), pages.ValidPages(), granted, Block(pages.brkUnits, Larger(nu));
      p := GrowList(nu);
      Book(s, v, g, b);
    }

    /** The heap grew by `b`, or was refused, from the break, valid pages and granted units given. */
    ghost predicate Grew(s: Break, v: set<nat>, g: set<nat>, b: Block)
      requires Layout()
      reads this`granted, pages, pages.l3Valid
    {
      && PagesGrew(s, v, b) == true
      && granted == if Granted(s, b.size * UNIT, pages.endPage * PAGE) then g + Span(b) else g
    }

    ghost predicate PagesGrew(s: Break, v: set<nat>, b: Block)
      requires Layout()
      reads pages, pages.l3Valid
    {
      && InRange(s, pages.endPage * PAGE) && s.brk == b.addr * UNIT && 0 < b.size && s.brk + b.size * UNIT < WORD_RANGE
      && pages.State() == After(s, b.size * UNIT, pages.endPage * PAGE)
      && pages.ValidPages() == v + Newly(s, b.size * UNIT, pages.endPage * PAGE)
    }

    /** Notes a growth by `b`, made when break, valid pages and granted units were as given. */
    ghost method Book(s: Break, v: set<nat>, g: set<nat>, b: Block)
      requires Layout() && Grew(s, v, g, b) == true
      modifies this`backed, this`partial
      ensures Booked(old(backed), old(partial), b, Granted(s, b.size * UNIT, pages.endPage * PAGE))
      ensures Backs(s, v, g, old(backed), old(partial), pages.endPage * PAGE) ==> Backing() == true
    {
      ghost var end, b0, p0 := pages.endPage * PAGE, backed, partial;
      if Granted(s, b.size * UNIT, end) && !partial {
        backed := backed + Span(b);
      }
      partial := partial || b.size % PAGE_UNITS != 0;
      if Backs(s, v, g, b0, p0, end) == true {
        assert Backs(pages.State(), pages.ValidPages(), granted, backed, partial, end) == true by {
          BacksGrow(s, v, g, b0, p0, end, b);
        }
      }
    }

    /** A growth by `b`: its units are backed if it was granted and no growth before it was for a partial page.
        Methods that pass it on compare it with `true`, to keep it in one piece. */
    ghost predicate Booked(backed0: set<nat>, partial0: bool, b: Block, grown: bool)
      reads this`backed, this`partial
    {
      && backed == (if grown && !partial0 then backed0 + Span(b) else backed0)
      && partial == (partial0 || b.size % PAGE_UNITS != 0)
    }

    /** Asks `sbrk` for `units` units. */
    method Ask(units: nat) returns (cp: int)
      requires Layout() && pages.Valid() && 0 < units && pages.brk + units * UNIT < WORD_RANGE
      modifies pages, pages.l3Valid
      ensures pages.Valid() && pages.brkUnits == old(pages.brkUnits) + units
      ensures pages.brk == old(pages.brk) + units * UNIT
      ensures cp == if old(pages.Grants(units * UNIT)) then old(pages.brk) else -1
      ensures cp != -1 ==> pages.brkUnits <= pages.endPage * PAGE_UNITS
      ensures PagesGrew(old(pages.State()), old(pages.ValidPages()), Block(old(pages.brkUnits), units)) == true
    {
      cp := pages.Sbrk(units * UNIT, units);
    }

    /** The growth itself. */
    method GrowList(nu: nat) returns (p: nat)
      requires Layout() && Valid() && freep != 0 && 0 < nu && pages.brk + Larger(nu) * UNIT < WORD_RANGE
      modifies pages, this`freep, this`chain, this`at, this`granted, mem, pages.l3Valid
      ensures Valid() == true && freep != 0
      ensures p != 0 <==> old(pages.Grants(Larger(nu) * UNIT))
      ensures pages.brk == old(pages.brk) + Larger(nu) * UNIT
      ensures p == 0 ==> chain == old(chain) && at == old(at) && granted == old(granted)
      ensures p != 0 ==>
        var b := Block(old(pages.brkUnits), Larger(nu));
        p == freep && at == |old(chain)| - 1 && Extends(old(chain), b, chain) && granted == old(granted) + Span(b)
      ensures Grew(old(pages.State()), old(pages.ValidPages()), old(granted),
                   Block(old(pages.brkUnits), Larger(nu))) == true
    {
      var units := if nu < NALLOC then NALLOC else nu;
      ghost var top := pages.Top();
      var cp := Ask(units);
      if cp == -1 {
        DisjointWidened(mem[..], chain, live, Start(), top, pages.Top());
        return 0;
      }
      var up := cp / UNIT;
      assert up == old(pages.brkUnits);
      ghost var j := AddBlock(up, units, top);
      return freep;
    }

    /** Writes the headers that take `nunits` units off the tail of the block at `p`,
        unlinking it when that is all of it. */
    method Cut(prevp: nat, p: nat, nunits: nat, ghost i: nat) returns (q: nat)
      requires Canonical(chain) && Linked(mem[..], chain)
      requires 1 <= i < |chain| && 0 < nunits <= chain[i].size && chain[i].End() <= mem.Length
      requires p == chain[i].addr && prevp == chain[i - 1].addr
      modifies mem
      ensures q == chain[i].End() - nunits && mem[q].size == nunits
      ensures SameBut(old(mem[..]), mem[..], if chain[i].size == nunits then prevp else p, q)
      ensures Linked(mem[..], Carve(chain, i, nunits))
    {
      ghost var m := mem[..];
      assert LinkedAt(m, chain, i) && LinkedAt(m, chain, i - 1);
      q := p;
      if mem[p].size == nunits {
        mem[prevp] := Header(mem[p].ptr, mem[prevp].size);
        assert Below(chain[i - 1], chain[i]);
        LinkedAfterUnlink(m, mem[..], chain, i);
      } else {
        mem[p] := Header(mem[p].ptr, mem[p].size - nunits);
        q := q + mem[p].size;
        mem[q] := Header(mem[q].ptr, nunits);
        LinkedAfterSplit(m, mem[..], chain, i, nunits);
      }
    }

    /** The cut, with `freep` left at the node before the one cut. */
    method Unthread(prevp: nat, p: nat, nunits: nat, ghost i: nat) returns (q: nat)
      requires Layout() && ListOk() && freep != 0
      requires 1 <= i < |chain| && 0 < nunits <= chain[i].size && chain[i].End() <= mem.Length
      requires p == chain[i].addr && prevp == chain[i - 1].addr
      modifies this`freep, this`chain, this`at, mem
      ensures ListOk() && freep != 0 && at == i - 1
      ensures chain == Carve(old(chain), i, nunits)
      ensures q == old(chain)[i].End() - nunits && mem[q].size == nunits
      ensures SameBut(old(mem[..]), mem[..], if old(chain)[i].size == nunits then prevp else p, q)
    {
      ghost var c := chain;
      q := Cut(prevp, p, nunits, i);
      freep := prevp;
      CarveCanonical(c, i, nunits);
      CarveBefore(c, i, nunits);
      chain := Carve(c, i, nunits);
      at := i - 1;
      AnchorLowest(chain, at);
    }

    /** Takes `nunits` units off the tail of the block at `p` and hands them out. */
    method Take(prevp: nat, p: nat, nunits: nat, ghost i: nat) returns (ap: nat)
      requires Layout() && Valid() && freep != 0 && 1 <= i < |chain| && 0 < nunits <= chain[i].size
      requires p == chain[i].addr && prevp == chain[i - 1].addr
      modifies this`freep, this`chain, this`at, this`live, mem
      ensures Valid() && freep != 0
      ensures chain == Carve(old(chain), i, nunits) && at == i - 1
      ensures ap == old(chain)[i].End() - nunits + 1
      ensures ap - 1 !in old(live) && live == old(live)[ap - 1 := nunits]
    {
      ghost var c, m, l, hi := chain, mem[..], live, pages.Top();
      CarveWithin(c, i, nunits, Start(), hi);
      var q := Unthread(prevp, p, nunits, i);
      TakeKeeps(m, mem[..], c, i, nunits, l, Start(), hi);
      PartitionAfterTake(granted, c, i, nunits, l);
      live := l[q := nunits];
      return q + 1;
    }

    /** The first request finds no list and makes the anchor a ring of its own. */
    method EnsureList()
      requires Layout() && Valid()
      modifies this`freep, mem
      ensures Valid() && freep != 0 && (old(freep) != 0 ==> freep == old(freep))
    {
      if freep == 0 {
        ghost var m := mem[..];
        mem[anchor] := Header(anchor, 0);
        freep := anchor;
        assert LinkedAt(mem[..], chain, 0);
        DisjointElsewhere(m, mem[..], chain, live, anchor, Start(), pages.Top());
      }
    }

    /** One turn of the search loop: from the node after `freep` to the first block that is
        big enough, or back to `freep`. */
    method Walk(nunits: nat) returns (found: bool, prevp: nat, p: nat, ghost i: nat)
      requires Layout() && ListOk() && freep != 0 && 0 < nunits
      ensures found <==> HasFit(chain, nunits)
      ensures found ==> 1 <= i < |chain| && NextFit(chain, at, nunits, i)
      ensures found ==> p == chain[i].addr && prevp == chain[i - 1].addr
    {
      ghost var m := mem[..];
      assert LinkedAt(m, chain, at);
      prevp := freep;
      p := mem[prevp].ptr;
      ghost var k: nat := at;
      i := Around(at, 1, |chain|);
      while true
        invariant mem[..] == m
        invariant k < |chain| && i == Around(k, 1, |chain|) && Unfit(chain, at, nunits, Steps(at, i, |chain|))
        invariant p == chain[i].addr && prevp == chain[k].addr
        decreases |chain| - Steps(at, i, |chain|)
      {
        assert LinkedAt(m, chain, i);
        if mem[p].size >= nunits {
          return true, prevp, p, i;
        }
        AddressesDiffer(chain, i, at);
        if p == freep {
          RingUnfit(chain, at, nunits);
          return false, prevp, p, i;
        }
        StepOn(chain, at, nunits, i);
        prevp := p;
        p := mem[p].ptr;
        k, i := i, Around(i, 1, |chain|);
      }
    }

    /** Serves the request from the list if some block is big enough. */
    method Serve(nunits: nat) returns (ap: nat, ghost i: nat)
      requires Layout() && Valid() && freep != 0 && 0 < nunits
      modifies this`freep, this`chain, this`at, this`live, mem
      ensures Valid() == true && freep != 0
      ensures ap == 0 <==> !HasFit(old(chain), nunits)
      ensures if ap == 0 then chain == old(chain) && at == old(at) && live == old(live)
              else Taken(old(chain), old(at), nunits, old(live), ap, i)
    {
      var found, prevp, p;
      found, prevp, p, i := Walk(nunits);
      if !found {
        return 0, i;
      }
      ap := Take(prevp, p, nunits, i);
    }

    /** The search after a full turn without a fit: grows the heap once and goes round again,
        over the list `mid` from node `f`. */
    method GrowAndServe(nunits: nat) returns (ap: nat, ghost i: nat, ghost mid: seq<Block>, ghost f: nat)
      requires Layout() && Valid() && freep != 0 && 0 < nunits && pages.brk + Larger(nunits) * UNIT < WORD_RANGE
      modifies pages, this`freep, this`chain, this`at, this`live, this`granted, this`backed, this`partial,
        mem, pages.l3Valid
      ensures Valid() == true && freep != 0
      ensures Booked(old(backed), old(partial), Block(old(pages.brkUnits), Larger(nunits)), ap != 0) == true
      ensures old(Backing()) ==> Backing() == true
      ensures ap != 0 <==> old(pages.Grants(Larger(nunits) * UNIT))
      ensures pages.brk == old(pages.brk) + Larger(nunits) * UNIT
      ensures ap == 0 ==> Same(old(chain), old(at), old(granted), old(live))
      ensures ap != 0 ==> Taken(mid, f, nunits, old(live), ap, i)
      ensures ap != 0 ==>
        var b := Block(old(pages.brkUnits), Larger(nunits));
        Extends(old(chain), b, mid) && f == |old(chain)| - 1 && granted == old(granted) + Span(b)
    {
      ghost var c, b := chain, Block(pages.brkUnits, Larger(nunits));
      var p := Morecore(nunits);
      mid, f := chain, at;
      ap, i := 0, 0;
      if p != 0 {
        assert HasFit(chain, nunits) by {
          ReleasedFits(c, |c| - 1, b, nunits);
        }
        ap, i := Serve(nunits);
      }
    }

    /** Next-fit search round the ring from `freep`, growing the heap at most once: refuses a request
        of fewer than two units, and otherwise carves exactly `Units(size)` units, the header at `ap - 1`
        included, out of block `i` of the list `mid` it searched last, starting after node `f`. */
    method HostMemoryMalloc(size: nat) returns (ap: nat, ghost i: nat, ghost mid: seq<Block>, ghost f: nat)
      requires Layout() && Valid() && size < WORD_RANGE
      requires Units(size) < 2 || HasFit(chain, Units(size)) || pages.brk + Larger(Units(size)) * UNIT < WORD_RANGE
      modifies pages, this`freep, this`chain, this`at, this`live, this`granted, this`backed, this`partial,
        mem, pages.l3Valid
      ensures Valid() == true && (old(Backing()) ==> Backing() == true)
      ensures Units(size) < 2 || HasFit(old(chain), Units(size)) ==> backed == old(backed) && partial == old(partial)
      ensures Units(size) >= 2 && !HasFit(old(chain), Units(size)) ==>
        Booked(old(backed), old(partial), Block(old(pages.brkUnits), Larger(Units(size))), ap != 0)
      ensures Units(size) < 2 ==> ap == 0
      ensures ap == 0 ==> Same(old(chain), old(at), old(granted), old(live))
      ensures ap != 0 ==> Taken(mid, f, Units(size), old(live), ap, i)
      ensures Units(size) >= 2 && HasFit(old(chain), Units(size)) ==>
        ap != 0 && mid == old(chain) && f == old(at) && granted == old(granted) && pages.State() == old(pages.State())
      ensures Units(size) >= 2 && !HasFit(old(chain), Units(size)) ==>
        var b := Block(old(pages.brkUnits), Larger(Units(size)));
        && (ap != 0 <==> old(pages.Grants(Larger(Units(size)) * UNIT)))
        && pages.brk == old(pages.brk) + Larger(Units(size)) * UNIT
        && (ap != 0 ==> Extends(old(chain), b, mid) && f == |old(chain)| - 1 && granted == old(granted) + Span(b))
    {
      var nunits := (size + UNIT - 1) % WORD_RANGE / UNIT + 1;
      mid, f, i := chain, at, 0;
      if nunits < 2 {
        ap := 0;
      } else {
        ap, i, mid, f := Fetch(nunits);
      }
    }

    /** Serves the request from the list, or grows the heap for it. */
    method Fetch(nunits: nat) returns (ap: nat, ghost i: nat, ghost mid: seq<Block>, ghost f: nat)
      requires Layout() && Valid() && 0 < nunits
      requires HasFit(chain, nunits) || pages.brk + Larger(nunits) * UNIT < WORD_RANGE
      modifies pages, this`freep, this`chain, this`at, this`live, this`granted, this`backed, this`partial,
        mem, pages.l3Valid
      ensures Valid() == true && (old(Backing()) ==> Backing() == true)
      ensures ap == 0 ==> Same(old(chain), old(at), old(granted), old(live))
      ensures ap != 0 ==> Taken(mid, f, nunits, old(live), ap, i)
      ensures HasFit(old(chain), nunits) ==>
        && ap != 0 && mid == old(chain) && f == old(at) && granted == old(granted)
        && pages.State() == old(pages.State())
        && backed == old(backed) && partial == old(partial)
      ensures !HasFit(old(chain), nunits) ==>
        var b := Block(old(pages.brkUnits), Larger(nunits));
        && (ap != 0 <==> old(pages.Grants(Larger(nunits) * UNIT))) && Booked(old(backed), old(partial), b, ap != 0)
        && pages.brk == old(pages.brk) + Larger(nunits) * UNIT
        && (ap != 0 ==> Extends(old(chain), b, mid) && f == |old(chain)| - 1 && granted == old(granted) + Span(b))
    {
      mid, f := chain, at;
      EnsureList();
      ap, i := Serve(nunits);
      if ap == 0 {
        ap, i, mid, f := GrowAndServe(nunits);
      }
    }

    /**
     * The allocator's entry point, in numbers. A request needs its bytes rounded up to units of 8, and one unit for
     * the header. If no free block has that many, the heap grows by 0x2000 bytes, or by what the request needs if
     * that is more; from a break in step this succeeds exactly when it is whole pages of 0x1000 bytes that fit.
     */
    method Alloc(size: nat) returns (ap: nat, ghost i: nat)
      requires Layout() && Valid() && size < 0x1_0000_0000
      requires Units(size) < 2 || HasFit(chain, Units(size)) || pages.brk + Larger(Units(size)) * UNIT < WORD_RANGE
      modifies pages, this`freep, this`chain, this`at, this`live, this`granted, this`backed, this`partial,
        mem, pages.l3Valid
      ensures Valid() == true && (old(Backing()) ==> Backing() == true)
      ensures size == 0 || size > 0xffff_fff8 ==> ap == 0
      ensures ap == 0 ==> chain == old(chain) && live == old(live) && granted == old(granted)
      ensures ap != 0 ==> ap - 1 !in old(live) && live == old(live)[ap - 1 := (size + 7) / 8 + 1]
      ensures 0 < size <= 0xffff_fff8 && HasFit(old(chain), (size + 7) / 8 + 1) ==>
        ap != 0 && pages.brk == old(pages.brk) && granted == old(granted)
      ensures 0 < size <= 0xffff_fff8 && HasFit(old(chain), (size + 7) / 8 + 1) ==>
        CutFrom(old(chain), old(at), (size + 7) / 8 + 1, ap, i) == true
      ensures 0 < size <= 0xffff_fff8 && !HasFit(old(chain), (size + 7) / 8 + 1) ==>
        GrownBy((size + 7) / 8 + 1, old(pages.brk), old(pages.last), old(granted), ap != 0) == true
    {
      UnitsNumber(size);
      ap, i := AllocUnits(size, Units(size));
    }

    /** The same for the `n` units of the request. */
    method AllocUnits(size: nat, ghost n: nat) returns (ap: nat, ghost i: nat)
      requires Layout() && Valid() && size < WORD_RANGE && n == Units(size)
      requires n < 2 || HasFit(chain, n) || pages.brk + Larger(n) * UNIT < WORD_RANGE
      modifies pages, this`freep, this`chain, this`at, this`live, this`granted, this`backed, this`partial,
        mem, pages.l3Valid
      ensures Valid() == true && (old(Backing()) ==> Backing() == true)
      ensures n < 2 ==> ap == 0
      ensures ap == 0 ==> chain == old(chain) && live == old(live) && granted == old(granted)
      ensures ap != 0 ==> ap - 1 !in old(live) && live == old(live)[ap - 1 := n]
      ensures n >= 2 && HasFit(old(chain), n) ==>
        && ap != 0 && pages.brk == old(pages.brk) && granted == old(granted)
        && CutFrom(old(chain), old(at), n, ap, i) == true
      ensures n >= 2 && !HasFit(old(chain), n) ==>
        GrownBy(n, old(pages.brk), old(pages.last), old(granted), ap != 0) == true
    {
      ghost var c, f, s, u, g := chain, at, pages.State(), pages.brkUnits, granted;
      assert u == s.brk / 8 && InRange(s, pages.endPage * PAGE);
      ghost var mid, from;
      ap, i, mid, from := HostMemoryMalloc(size);
      if n >= 2 {
        if HasFit(c, n) {
          assert CutFrom(c, f, n, ap, i) == true by {
            NextFitIs(c, f, n, i);
          }
        } else {
          assert GrownBy(n, s.brk, s.last, g, ap != 0) == true by {
            GrownNumber(s, u, g, n, ap != 0);
          }
        }
      }
    }

    /** The request came off the tail of block `i`, the first on the way round from node `f` that is big enough, and the
        search resumes at the node before it. */
    ghost predicate CutFrom(c: seq<Block>, f: nat, n: nat, ap: nat, i: nat)
      reads this`at
    {
      && 1 <= i < |c| && f < |c| && c[i].size >= n && ap == c[i].addr + c[i].size - n + 1 && at == i - 1
      && forall k: nat :: k < |c| && Between(f, k, i) ==> c[k].size < n
    }

    /**
     * The heap grew, or was refused, from the break, the mapped end and the granted units given: by 0x2000 bytes for
     * up to 1024 units, and otherwise by 8 bytes a unit, which from a break in step must be pages of 0x1000 bytes.
     */
    ghost predicate GrownBy(n: nat, brk0: nat, last0: nat, granted0: set<nat>, ok: bool)
      reads this`granted, pages`brk
    {
      && pages.brk == brk0 + (if n <= 1024 then 0x2000 else 8 * n)
      && (brk0 == last0 && n <= 1024 ==> (ok <==> brk0 + 0x2000 <= pages.endPage * 0x1000))
      && (brk0 == last0 && n > 1024 ==> (ok <==> n % 512 == 0 && brk0 + 8 * n <= pages.endPage * 0x1000))
      && (ok && n <= 1024 ==> granted == granted0 + Span(Block(brk0 / 8, 1024)))
      && (ok && n > 1024 ==> granted == granted0 + Span(Block(brk0 / 8, n)))
      && (!ok ==> granted == granted0)
    }

    lemma GrownNumber(s: Break, u: nat, g: set<nat>, n: nat, ok: bool)
      requires Layout() && 2 <= n && InRange(s, pages.endPage * PAGE) && s.brk + Larger(n) * UNIT < WORD_RANGE
      requires u == s.brk / 8 && pages.brk == s.brk + Larger(n) * UNIT
      requires ok == Granted(s, Larger(n) * UNIT, pages.endPage * PAGE)
      requires granted == if ok then g + Span(Block(u, Larger(n))) else g
      ensures GrownBy(n, s.brk, s.last, g, ok) == true
    {
      GrowthNumber(s, n, pages.endPage * PAGE);
    }

    /** A request served from the list and given straight back leaves the free list and the
        allocated blocks as they were. */
    method MallocThenFree(size: nat)
      requires Layout() && Valid() && size < WORD_RANGE && Units(size) >= 2 && HasFit(chain, Units(size))
      modifies pages, this`freep, this`chain, this`at, this`live, this`granted, this`backed, this`partial,
        mem, pages.l3Valid
      ensures Valid() && chain == old(chain) && live == old(live)
    {
      ghost var c, l := chain, live;
      var ap, i, mid, f := HostMemoryMalloc(size);
      GiveBack(ap, c, f, Units(size), l, i);
    }

    /** Frees the block that a request took last. */
    method GiveBack(ap: nat, ghost c: seq<Block>, ghost f: nat, ghost n: nat, ghost l: map<nat, nat>, ghost i: nat)
      requires Layout() && Valid() && 0 < n && Canonical(c) && Taken(c, f, n, l, ap, i)
      modifies this`freep, this`chain, this`at, this`live, mem
      ensures Valid() && chain == c && live == l
    {
      assert live - {ap - 1} == l;
      ghost var j := Free(ap);
      CarveThenRelease(c, i, n, j);
    }

    ghost predicate Same(c: seq<Block>, f: nat, g: set<nat>, l: map<nat, nat>)
      reads this
    {
      chain == c && at == f && granted == g && live == l
    }

    /** The `n` units up to `ap - 1 + n` were cut from block `i` of `c`, the first big enough after node `f`. */
    ghost predicate Taken(c: seq<Block>, f: nat, n: nat, l: map<nat, nat>, ap: nat, i: nat)
      reads this
    {
      && f < |c| && 1 <= i < |c| && NextFit(c, f, n, i)
      && chain == Carve(c, i, n) && at == i - 1
      && ap == c[i].End() - n + 1 && ap - 1 !in l && live == l[ap - 1 := n]
    }
  }

  /** A live block has all its pages valid exactly when all its units are backed, which they are as long as no growth
      asked for a partial page. */
  lemma LiveBacked(h: Heap, b: nat)
    requires h.Layout() && h.Valid() && h.Backing() && b in h.live
    ensures Backed(b * UNIT, h.live[b] * UNIT, h.pages.ValidPages()) <==> Span(Block(b, h.live[b])) <= h.backed
    ensures !h.partial ==> Backed(b * UNIT, h.live[b] * UNIT, h.pages.ValidPages())
  {
    var x, v := Block(b, h.live[b]), h.pages.ValidPages();
    assert LiveOk(h.mem[..], h.chain, h.live, b, h.Start(), h.pages.Top());
    forall u | u in Span(x)
      ensures u in h.granted && (InValid(v, u) <==> u in h.backed)
    {
      assert Allocated(h.live, u);
    }
    SpanBacked(x, v, h.backed);
  }

  lemma DisjointElsewhere(m: seq<Header>, m': seq<Header>, c: seq<Block>, l: map<nat, nat>, x: nat, lo: nat, hi: nat)
    requires Disjoint(m, c, l, lo, hi) && SameBut(m, m', x, x) && x < lo
    ensures Disjoint(m', c, l, lo, hi)
  {
    forall b | b in l
      ensures LiveOk(m', c, l, b, lo, hi)
    {
      assert LiveOk(m, c, l, b, lo, hi);
    }
  }

  /** Only the header above the carved units and one node's header are written. */
  lemma TakeKeeps(m: seq<Header>, m': seq<Header>, c: seq<Block>, i: nat, units: nat,
                  l: map<nat, nat>, lo: nat, hi: nat)
    requires Disjoint(m, c, l, lo, hi) && Canonical(c) && 1 <= i < |c| && 0 < units <= c[i].size && c[0].addr < lo
    requires var q := c[i].End() - units; var w := if c[i].size == units then c[i - 1].addr else c[i].addr;
      SameBut(m, m', w, q) && q < |m'| && m'[q].size == units
    ensures var q := c[i].End() - units;
      q !in l && Disjoint(m', Carve(c, i, units), l[q := units], lo, hi)
  {
    var q, d := c[i].End() - units, Carve(c, i, units);
    var l' := l[q := units];
    forall x | x in l
      ensures x != q && LiveOk(m', d, l', x, lo, hi) && Clear(Block(q, units), Block(x, l'[x]))
    {
      assert LiveOk(m, c, l, x, lo, hi);
      TakenClear(m, c, i, units, l, x, lo, hi);
      TakenLive(m, m', c, i, units, l, x, lo, hi);
    }
    CarvedOff(c, i, units);
    CarveWithin(c, i, units, lo, hi);
    OneMoreLive(m', d, l, l', q, lo, hi);
  }

  /** The units carved off are clear of every live block. */
  lemma TakenClear(m: seq<Header>, c: seq<Block>, i: nat, units: nat, l: map<nat, nat>, x: nat, lo: nat, hi: nat)
    requires x in l && LiveOk(m, c, l, x, lo, hi) && 1 <= i < |c| && 0 < units <= c[i].size
    ensures Apart(Carve(c, i, units), Block(x, l[x]))
    ensures Clear(Block(c[i].End() - units, units), Block(x, l[x])) && x != c[i].End() - units
  {
    CarveApart(c, i, units, Block(x, l[x]));
  }

  /** Its header is not among those written. */
  lemma TakenLive(m: seq<Header>, m': seq<Header>, c: seq<Block>, i: nat, units: nat, l: map<nat, nat>, x: nat,
                  lo: nat, hi: nat)
    requires x in l && LiveOk(m, c, l, x, lo, hi) && 1 <= i < |c| && 0 < units <= c[i].size
      && Canonical(c) && c[0].addr < lo
    requires var q := c[i].End() - units; var w := if c[i].size == units then c[i - 1].addr else c[i].addr;
      SameBut(m, m', w, q) && x != q
    requires Apart(Carve(c, i, units), Block(x, l[x]))
    ensures LiveOk(m', Carve(c, i, units), l[c[i].End() - units := units], x, lo, hi)
  {
    HeaderElsewhere(c, i, Block(x, l[x]));
    HeaderElsewhere(c, i - 1, Block(x, l[x]));
  }

  /** A block clear of all the others may join them. */
  lemma OneMoreLive(m: seq<Header>, c: seq<Block>, l: map<nat, nat>, l': map<nat, nat>, q: nat, lo: nat, hi: nat)
    requires Within(c, lo, hi) && q !in l && q in l' && l' == l[q := l'[q]] && LiveOk(m, c, l', q, lo, hi)
    requires forall x :: x in l ==> LiveOk(m, c, l', x, lo, hi) && Clear(Block(q, l'[q]), Block(x, l'[x]))
    requires forall b, b' {:trigger Clear(Block(b, l[b]), Block(b', l[b']))} ::
      b in l && b' in l && b != b' ==> Clear(Block(b, l[b]), Block(b', l[b']))
    ensures Disjoint(m, c, l', lo, hi)
  {
    forall b, b' {:trigger Clear(Block(b, l'[b]), Block(b', l'[b']))} | b in l' && b' in l' && b != b'
      ensures Clear(Block(b, l'[b]), Block(b', l'[b']))
    {
      if b != q && b' != q {
        assert Clear(Block(b, l[b]), Block(b', l[b']));
      }
    }
  }

  lemma PartitionAfterTake(granted: set<nat>, c: seq<Block>, i: nat, units: nat, l: map<nat, nat>)
    requires Partition(granted, c, l) && Canonical(c) && i < |c| && 0 < units <= c[i].size
    requires c[i].End() - units !in l
    ensures Partition(granted, Carve(c, i, units), l[c[i].End() - units := units])
  {
    var q := c[i].End() - units;
    var l' := l[q := units];
    forall u: nat
      ensures u in granted <==> Covers(Carve(c, i, units), u) || Allocated(l', u)
    {
      CarveCovers(c, i, units, u);
      assert Block(q, units).Holds(u) ==> c[i].Holds(u);
      AllocatedWithout(l', q, u);
      assert l' - {q} == l;
    }
  }

  lemma DisjointWidened(m: seq<Header>, c: seq<Block>, l: map<nat, nat>, lo: nat, hi: nat, hi': nat)
    requires Disjoint(m, c, l, lo, hi) && hi <= hi'
    ensures Disjoint(m, c, l, lo, hi')
  {
    forall x | x in l
      ensures LiveOk(m, c, l, x, lo, hi')
    {
      assert LiveOk(m, c, l, x, lo, hi);
    }
  }

  /** A fresh block above everything can be given a header without disturbing the list. */
  lemma NewBlockOnTop(m: seq<Header>, m': seq<Header>, c: seq<Block>, lo: nat, hi: nat, b: Block)
    requires Canonical(c) && Linked(m, c) && Within(c, lo, hi) && c[0].addr < lo <= b.addr && hi <= b.addr
    requires SameBut(m, m', b.addr, b.addr)
    ensures Linked(m', c) && Apart(c, b)
  {
    forall i: nat | i < |c|
      ensures LinkedAt(m', c, i)
    {
      assert LinkedAt(m, c, i) && c[i].addr < b.addr;
    }
  }

  lemma DisjointGrown(m: seq<Header>, m': seq<Header>, c: seq<Block>, l: map<nat, nat>,
                      lo: nat, hi: nat, hi': nat, j: nat, b: Block)
    requires Disjoint(m, c, l, lo, hi) && Canonical(c) && FitsAfter(c, j, b) && b.size > 0
    requires c[0].addr < lo <= b.addr && hi <= b.addr && b.End() <= hi' && SameBut(m, m', b.addr, c[j].addr)
    ensures Disjoint(m', Release(c, j, b), l, lo, hi') && j == |c| - 1
  {
    assert Within(c, lo, hi');
    ReleaseWithin(c, j, b, lo, hi');
    forall x | x in l
      ensures LiveOk(m', Release(c, j, b), l, x, lo, hi')
    {
      assert LiveOk(m, c, l, x, lo, hi);
      HeaderElsewhere(c, j, Block(x, l[x]));
      ReleaseApart(c, j, b, Block(x, l[x]));
    }
  }

  lemma PartitionGrown(granted: set<nat>, c: seq<Block>, l: map<nat, nat>, j: nat, b: Block)
    requires Partition(granted, c, l) && Canonical(c) && FitsAfter(c, j, b) && b.size > 0
    ensures Partition(granted + Span(b), Release(c, j, b), l)
  {
    ReleaseCoversAll(c, j, b);
  }

  lemma FreeKeeps(m: seq<Header>, m': seq<Header>, c: seq<Block>, j: nat, l: map<nat, nat>, a: nat, lo: nat, hi: nat)
    requires a in l && Disjoint(m, c, l, lo, hi) && Canonical(c) && FitsAfter(c, j, Block(a, l[a])) && c[0].addr < lo
    requires SameBut(m, m', a, c[j].addr)
    ensures Disjoint(m', Release(c, j, Block(a, l[a])), l - {a}, lo, hi)
  {
    var l', b := l - {a}, Block(a, l[a]);
    assert LiveOk(m, c, l, a, lo, hi);
    ReleaseWithin(c, j, b, lo, hi);
    forall x | x in l'
      ensures LiveOk(m', Release(c, j, b), l', x, lo, hi)
    {
      assert LiveOk(m, c, l, x, lo, hi) && Clear(b, Block(x, l[x]));
      HeaderElsewhere(c, j, Block(x, l[x]));
      ReleaseApart(c, j, b, Block(x, l[x]));
    }
  }

  lemma PartitionAfterFree(granted: set<nat>, c: seq<Block>, j: nat, l: map<nat, nat>, a: nat)
    requires a in l && Partition(granted, c, l) && Canonical(c) && FitsAfter(c, j, Block(a, l[a])) && l[a] > 0
    ensures Partition(granted, Release(c, j, Block(a, l[a])), l - {a})
  {
    ReleaseCoversAll(c, j, Block(a, l[a]));
    forall u: nat
      ensures u in granted <==> Covers(Release(c, j, Block(a, l[a])), u) || Allocated(l - {a}, u)
    {
      AllocatedWithout(l, a, u);
    }
  }

  /** An allocated block's header is not the header of a free node. */
  lemma HeaderElsewhere(c: seq<Block>, j: nat, x: Block)
    requires Canonical(c) && j < |c| && Apart(c, x) && x.size > 0 && c[0].addr < x.addr
    ensures x.addr != c[j].addr
  {
    assert Clear(c[j], x);
  }

  lemma AllocatedWithout(l: map<nat, nat>, b: nat, u: nat)
    requires b in l
    ensures Allocated(l, u) <==> Allocated(l - {b}, u) || Block(b, l[b]).Holds(u)
  {
    if x :| x in l && Block(x, l[x]).Holds(u) && x != b {
      assert x in l - {b} && Block(x, (l - {b})[x]).Holds(u);
    }
    if x :| x in l - {b} && Block(x, (l - {b})[x]).Holds(u) {
      assert x in l && Block(x, l[x]).Holds(u);
    }
  }

  /** The node the search loop stops at is the one the block belongs behind. */
  lemma SlotFound(c: seq<Block>, b: Block, j: nat, k: nat)
    requires Canonical(c) && FitsAfter(c, j, b) && c[0].addr < b.addr && b.size > 0 && k < |c|
    requires (c[k].addr < b.addr < Next(c, k))
      || (c[k].addr >= Next(c, k) && (b.addr > c[k].addr || b.addr < Next(c, k)))
    ensures k == j
  {
    SlotOrder(c, b, j, k);
    SlotOrder(c, b, j, Around(k, 1, |c|));
  }

  lemma SlotOrder(c: seq<Block>, b: Block, j: nat, i: nat)
    requires Canonical(c) && FitsAfter(c, j, b) && b.size > 0 && i < |c|
    ensures c[i].addr < b.addr <==> i <= j
    ensures c[i].addr >= Next(c, i) <==> i == |c| - 1
  {
    assert i < j ==> Below(c[i], c[j]);
    assert i > j + 1 ==> Below(c[j + 1], c[i]);
    assert i > 0 ==> Below(c[0], c[i]);
    assert i + 1 < |c| ==> Below(c[i], c[i + 1]);
  }

  /** Comparing with the next link in ring order is the same as asking for the upper neighbour. */
  lemma JoinTests(c: seq<Block>, j: nat, b: Block)
    requires Canonical(c) && FitsAfter(c, j, b) && c[0].addr < b.addr && b.size > 0
    ensures b.End() == Next(c, j) <==> JoinsUp(c, j, b)
    ensures c[j].addr != b.addr && (JoinsUp(c, j, b) ==> c[j + 1].addr != b.addr)
    ensures JoinsUp(c, j, b) ==> c[j + 1].addr != c[j].addr
  {
  }
}
