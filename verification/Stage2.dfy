/** The stage-2 table builder of memory_hw.c: it compiles lists of memory descriptors into
    a flat array that holds a first-level table and, per 1 GB region, a second-level table
    followed by its 512 third-level tables. */
module Stage2 {
  import opened Lpae
  import opened Machine

  const BLOCK := 0x20_0000
  const REGION := 512 + 512 * 512   // entries of one second-level table and its third-level tables
  const PAGES := 512 * 512          // pages of a 1 GB region

  datatype Memmap = Memmap(va: nat, pa: nat, size: nat, attr: nat) {
    /** The first page, and how many whole pages: sizes round down. */
    function First(): nat { va / PAGE }
    function Count(): nat { size / PAGE }

    predicate Covers(page: nat) {
      First() <= page < First() + Count()
    }
    predicate InRegion() {
      First() < PAGES && First() + Count() <= PAGES
    }
    /** Starting a 2 MB block, or staying inside one. */
    predicate WellPlaced() {
      First() % 512 == 0 || First() % 512 + Count() <= 512
    }
  }

  /** The index of the second-level table of region `i`. */
  function TtblL2(i: nat): nat {
    512 + REGION * i
  }

  /** The index of the third-level table of block `block` below the second-level table at `l2`;
      since those tables follow each other, also that of page `512 * block` of the region. */
  function TtblL3(l2: nat, block: nat): nat {
    l2 + 512 + 512 * block
  }

  /** `s` with `n` page descriptors written from index `at` on, mapping consecutive pages from `pa`. */
  function Written(s: seq<Desc>, at: nat, n: nat, pa: nat, mattr: nat): (r: seq<Desc>)
    ensures |r| == |s|
  {
    seq(|s|, x requires 0 <= x < |s| =>
      if at <= x < at + n then MapPage(s[x], pa + PAGE * (x - at), mattr) else s[x])
  }

  /** `s` with the table descriptors from index `lo` to `hi` enabled. */
  function Enabled(s: seq<Desc>, lo: nat, hi: nat): (r: seq<Desc>)
    ensures |r| == |s|
  {
    seq(|s|, x requires 0 <= x < |s| => if lo <= x < hi then EnableTable(s[x]) else s[x])
  }

  /** `n` pages mapped from page `512 * block` on, with the tables they need enabled. */
  function MapFrom(s: seq<Desc>, l2: nat, block: nat, n: nat, pa: nat, mattr: nat): seq<Desc> {
    Enabled(Written(s, TtblL3(l2, block), n, pa, mattr), l2 + block, l2 + block + (n + 511) / 512)
  }

  /** Everything mapping a descriptor does to the array: a head of at most 512 pages when it does
      not start on a block boundary, and the rest from the next block on. */
  function Mapped(s: seq<Desc>, l2: nat, md: Memmap): seq<Desc> {
    var block, rest := md.va / BLOCK, md.va % BLOCK;
    if rest == 0 then MapFrom(s, l2, block, md.Count(), md.pa, md.attr)
    else
      var head := if md.Count() > 512 then 512 else md.Count();
      MapFrom(MapHead(s, l2, block, rest / PAGE, head, md.pa, md.attr),
              l2, block + 1, md.Count() - head, md.pa + head * PAGE, md.attr)
  }

  function MapHead(s: seq<Desc>, l2: nat, block: nat, offset: nat, n: nat, pa: nat, mattr: nat): seq<Desc> {
    Enabled(Written(s, TtblL3(l2, block) + offset, n, pa, mattr), l2 + block, l2 + block + 1)
  }

  method Ttbl3Map(t: array<Desc>, ttbl3: nat, offset: nat, pages: nat, pa0: nat, mattr: nat)
    requires ttbl3 + offset + pages <= t.Length
    modifies t
    ensures t[..] == Written(old(t[..]), ttbl3 + offset, pages, pa0, mattr)
  {
    var pa := pa0;
    var index, last := offset, offset + pages;
    while index < last
      invariant offset <= index <= last && pa == pa0 + PAGE * (index - offset)
      invariant t[..] == Written(old(t[..]), ttbl3 + offset, index - offset, pa0, mattr)
    {
      t[ttbl3 + index] := MapPage(t[ttbl3 + index], pa, mattr);
      pa := pa + PAGE;
      index := index + 1;
    }
  }

  /** The blocks of a descriptor: every block enabled, then its 512 pages mapped. */
  method MapBlocks(t: array<Desc>, l2: nat, block: nat, blocks: nat, pa0: nat, mattr: nat)
    requires block + blocks <= 512 && l2 + REGION <= t.Length
    modifies t
    ensures t[..] == MapFrom(old(t[..]), l2, block, 512 * blocks, pa0, mattr)
  {
    var pa := pa0;
    var i := block;
    while i < block + blocks
      invariant block <= i <= block + blocks && pa == pa0 + BLOCK * (i - block)
      invariant t[..] == MapFrom(old(t[..]), l2, block, 512 * (i - block), pa0, mattr)
    {
      t[l2 + i] := EnableTable(t[l2 + i]);
      Ttbl3Map(t, TtblL3(l2, i), 0, 512, pa, mattr);
      pa := pa + BLOCK;
      i := i + 1;
    }
  }

  /** A size splits into whole blocks and a tail of pages. */
  lemma SizeParts(size: nat)
    ensures size / PAGE == 512 * (size / BLOCK) + (size - size / BLOCK * BLOCK) / PAGE
    ensures (size - size / BLOCK * BLOCK) / PAGE < 512
  {
  }

  /** Body and tail: whole blocks, then the pages left over. */
  method MapRest(t: array<Desc>, l2: nat, index: nat, size0: nat, pa0: nat, mattr: nat)
    requires 512 * index + size0 / PAGE <= PAGES && l2 + REGION <= t.Length
    modifies t
    ensures t[..] == MapFrom(old(t[..]), l2, index, size0 / PAGE, pa0, mattr)
  {
    var size, pa := size0, pa0;
    var blocks := size / BLOCK;
    MapBlocks(t, l2, index, blocks, pa, mattr);
    pa := pa + blocks * BLOCK;
    size := size - blocks * BLOCK;
    var pages := size / PAGE;
    assert size0 / PAGE == 512 * blocks + pages && pages < 512 by {
      SizeParts(size0);
    }
    if pages > 0 {
      ghost var s := t[..];
      Ttbl3Map(t, TtblL3(l2, index + blocks), 0, pages, pa, mattr);
      t[l2 + index + blocks] := EnableTable(t[l2 + index + blocks]);
      TailJoins(old(t[..]), s, t[..], l2, index, blocks, pages, pa0, mattr);
    }
  }

  lemma TailJoins(s: seq<Desc>, m: seq<Desc>, r: seq<Desc>, l2: nat, index: nat, blocks: nat, pages: nat,
                  pa: nat, mattr: nat)
    requires index + blocks < 512 && 0 < pages < 512 && l2 + REGION <= |s|
    requires m == MapFrom(s, l2, index, 512 * blocks, pa, mattr)
    requires var w := Written(m, TtblL3(l2, index + blocks), pages, pa + BLOCK * blocks, mattr);
      r == w[l2 + index + blocks := EnableTable(w[l2 + index + blocks])]
    ensures r == MapFrom(s, l2, index, 512 * blocks + pages, pa, mattr)
  {
  }

  /** An address splits into a block and a page in it, and taking whole pages off a size leaves the rest. */
  lemma HeadParts(md: Memmap, head: nat)
    requires head <= md.Count()
    ensures md.First() == 512 * (md.va / BLOCK) + md.va % BLOCK / PAGE && md.va % BLOCK / PAGE < 512
    ensures md.size - head * PAGE >= 0 && (md.size - head * PAGE) / PAGE == md.Count() - head
  {
  }

  method MapHeadOf(t: array<Desc>, l2: nat, index: nat, offset: nat, pages: nat, pa: nat, mattr: nat)
    requires index < 512 && offset < 512 && 512 * index + offset + pages <= PAGES && l2 + REGION <= t.Length
    modifies t
    ensures t[..] == MapHead(old(t[..]), l2, index, offset, pages, pa, mattr)
  {
    Ttbl3Map(t, TtblL3(l2, index), offset, pages, pa, mattr);
    t[l2 + index] := EnableTable(t[l2 + index]);
  }

  /** Maps one memory descriptor: head, blocks, tail. */
  method Ttbl2Map(t: array<Desc>, l2: nat, md: Memmap)
    requires md.InRegion() && l2 + REGION <= t.Length
    modifies t
    ensures t[..] == Mapped(old(t[..]), l2, md)
  {
    var index, blockOffset := md.va / BLOCK, md.va % BLOCK;
    var size, pa := md.size, md.pa;
    if blockOffset != 0 {
      var pages := size / PAGE;
      if pages > 512 {
        pages := 512;
      }
      HeadParts(md, pages);
      MapHeadOf(t, l2, index, blockOffset / PAGE, pages, pa, md.attr);
      size := size - pages * PAGE;
      pa := pa + pages * PAGE;
      index := index + 1;
    }
    HeadParts(md, 0);
    if size > 0 {
      MapRest(t, l2, index, size, pa, md.attr);
    } else {
      MapNothing(t[..], l2, index, pa, md.attr);
    }
  }

  lemma MapNothing(s: seq<Desc>, l2: nat, index: nat, pa: nat, mattr: nat)
    ensures MapFrom(s, l2, index, 0, pa, mattr) == s
  {
  }

  lemma MapFromPage(s: seq<Desc>, l2: nat, block: nat, n: nat, pa: nat, mattr: nat, b: nat, k: nat)
    requires n == 0 || 512 * block + n <= PAGES
    requires b < 512 && k < 512 && l2 + REGION <= |s|
    ensures var e, page := s[TtblL3(l2, b) + k], 512 * b + k;
      MapFrom(s, l2, block, n, pa, mattr)[TtblL3(l2, b) + k] ==
        if 512 * block <= page < 512 * block + n then MapPage(e, pa + PAGE * (page - 512 * block), mattr) else e
  {
  }

  lemma MapHeadPage(s: seq<Desc>, l2: nat, block: nat, offset: nat, n: nat, pa: nat, mattr: nat, b: nat, k: nat)
    requires block < 512 && 512 * block + offset + n <= PAGES && b < 512 && k < 512 && l2 + REGION <= |s|
    ensures var e, page, first := s[TtblL3(l2, b) + k], 512 * b + k, 512 * block + offset;
      MapHead(s, l2, block, offset, n, pa, mattr)[TtblL3(l2, b) + k] ==
        if first <= page < first + n then MapPage(e, pa + PAGE * (page - first), mattr) else e
  {
  }

  /** What mapping a well-placed descriptor does to the descriptor of page `k` of block `b`. */
  lemma MappedPage(s: seq<Desc>, l2: nat, md: Memmap, b: nat, k: nat)
    requires md.WellPlaced() && md.InRegion() && b < 512 && k < 512 && l2 + REGION <= |s|
    ensures var e, page := s[TtblL3(l2, b) + k], 512 * b + k;
      Mapped(s, l2, md)[TtblL3(l2, b) + k] ==
        if md.Covers(page) then MapPage(e, md.pa + PAGE * (page - md.First()), md.attr) else e
  {
    HeadParts(md, 0);
    var block, offset := md.va / BLOCK, md.va % BLOCK / PAGE;
    assert (512 * block + offset) % 512 == offset;
    PartsPage(s, l2, md, block, offset, b, k);
  }

  lemma PartsPage(s: seq<Desc>, l2: nat, md: Memmap, block: nat, offset: nat, b: nat, k: nat)
    requires block == md.va / BLOCK && offset == md.va % BLOCK / PAGE && md.First() == 512 * block + offset
    requires 512 * block + offset + md.Count() <= PAGES && offset < 512 && (offset == 0 || offset + md.Count() <= 512)
    requires block < 512 && b < 512 && k < 512 && l2 + REGION <= |s|
    ensures var e, page := s[TtblL3(l2, b) + k], 512 * b + k;
      Mapped(s, l2, md)[TtblL3(l2, b) + k] ==
        if md.Covers(page) then MapPage(e, md.pa + PAGE * (page - md.First()), md.attr) else e
  {
    var n := md.Count();
    if md.va % BLOCK == 0 {
      MapFromPage(s, l2, block, n, md.pa, md.attr, b, k);
    } else {
      var head := if n > 512 then 512 else n;
      var h := MapHead(s, l2, block, offset, head, md.pa, md.attr);
      SplitPage(s, h, l2, block, offset, n, head, md.pa, md.attr, b, k);
    }
  }

  lemma SplitPage(s: seq<Desc>, h: seq<Desc>, l2: nat, block: nat, offset: nat, n: nat, head: nat, pa: nat, mattr: nat,
                  b: nat, k: nat)
    requires h == MapHead(s, l2, block, offset, head, pa, mattr) && head == (if n > 512 then 512 else n)
    requires 512 * block + offset + n <= PAGES && offset < 512 && (offset == 0 || offset + n <= 512)
    requires block < 512 && b < 512 && k < 512 && l2 + REGION <= |s|
    ensures var e, page, first := s[TtblL3(l2, b) + k], 512 * b + k, 512 * block + offset;
      MapFrom(h, l2, block + 1, n - head, pa + head * PAGE, mattr)[TtblL3(l2, b) + k] ==
        if first <= page < first + n then MapPage(e, pa + PAGE * (page - first), mattr) else e
  {
    MapHeadPage(s, l2, block, offset, head, pa, mattr, b, k);
    MapFromPage(h, l2, block + 1, n - head, pa + head * PAGE, mattr, b, k);
  }

  /** What it does to the table descriptor of block `b`: enabled whenever one of its pages is mapped. */
  lemma MappedBlock(s: seq<Desc>, l2: nat, md: Memmap, b: nat, page: nat)
    requires md.WellPlaced() && md.InRegion() && b < 512 && 512 * b <= page < 512 * b + 512 && l2 + REGION <= |s|
    ensures Mapped(s, l2, md)[l2 + b] == s[l2 + b] || Mapped(s, l2, md)[l2 + b] == EnableTable(s[l2 + b])
    ensures md.Covers(page) ==> Mapped(s, l2, md)[l2 + b] == EnableTable(s[l2 + b])
  {
    HeadParts(md, 0);
  }

  lemma MappedElsewhere(s: seq<Desc>, l2: nat, md: Memmap, x: nat)
    requires md.InRegion() && x < |s| && (x < l2 || x >= l2 + REGION)
    ensures Mapped(s, l2, md)[x] == s[x]
  {
    HeadParts(md, 0);
  }

  /** The physical address of index `x` of the table array, which starts in page frame `root`. */
  function Address(root: nat, x: nat): nat {
    root * PAGE + 8 * x
  }

  /** The page frame, counted from the array's start, of the second-level table of region `i`. */
  function L2Frame(i: nat): nat {
    1 + 513 * i
  }

  /** A region's tables wired up and empty: what initialisation and unmapping leave. */
  function Cleared(s: seq<Desc>, root: nat, l2: nat): (r: seq<Desc>)
    ensures |r| == |s|
  {
    seq(|s|, x requires 0 <= x < |s| =>
      if l2 <= x < l2 + 512 then Invalid(ConfTable(s[x], Address(root, TtblL3(l2, x - l2)), false))
      else if l2 + 512 <= x < l2 + REGION then Invalid(s[x])
      else s[x])
  }

  method Ttbl2InitEntries(t: array<Desc>, root: nat, l2: nat)
    requires l2 + REGION <= t.Length
    modifies t
    ensures t[..] == Cleared(old(t[..]), root, l2)
  {
    ghost var s := t[..];
    var i := 0;
    while i < 512
      invariant i <= 512
      invariant forall x :: 0 <= x < t.Length && (l2 <= x < l2 + i || l2 + 512 <= x < TtblL3(l2, i)) ==>
        t[x] == Cleared(s, root, l2)[x]
      invariant forall x :: 0 <= x < t.Length && !(l2 <= x < l2 + i || l2 + 512 <= x < TtblL3(l2, i)) ==> t[x] == s[x]
    {
      var ttbl3 := TtblL3(l2, i);
      t[l2 + i] := ConfTable(t[l2 + i], Address(root, ttbl3), false);
      var j := 0;
      while j < 512
        invariant j <= 512
        invariant forall x :: 0 <= x < t.Length && (l2 <= x < l2 + i + 1 || l2 + 512 <= x < ttbl3 + j) ==>
          t[x] == Cleared(s, root, l2)[x]
        invariant forall x :: 0 <= x < t.Length && !(l2 <= x < l2 + i + 1 || l2 + 512 <= x < ttbl3 + j) ==> t[x] == s[x]
      {
        t[ttbl3 + j] := Invalid(t[ttbl3 + j]);
        j := j + 1;
      }
      i := i + 1;
    }
    assert t[..] == Cleared(s, root, l2);
  }

  /** `blocks` table descriptors from block `block` on, and `pages` page descriptors of the block after
      them, marked invalid. */
  function Unmapped(s: seq<Desc>, l2: nat, block: nat, blocks: nat, pages: nat): (r: seq<Desc>)
    ensures |r| == |s|
  {
    seq(|s|, x requires 0 <= x < |s| =>
      if l2 + block <= x < l2 + block + blocks || 0 <= x - TtblL3(l2, block + blocks) < pages
      then Invalid(s[x]) else s[x])
  }

  /** Both descriptors of a page's walk are valid. */
  predicate Reachable(s: seq<Desc>, l2: nat, page: nat)
    requires page < PAGES && l2 + REGION <= |s|
  {
    s[l2 + page / 512].valid && s[l2 + 512 + page].valid
  }

  /** A page of the range, counted from the start of its first block. */
  predicate InUnmapped(page: nat, vaOffset: nat, size: nat) {
    512 * (vaOffset / 0x20_0000) <= page < 512 * (vaOffset / 0x20_0000) + size / 0x1000
  }

  /** Exactly the pages of the range stop being reachable. */
  lemma UnmappedPage(s: seq<Desc>, u: seq<Desc>, l2: nat, vaOffset: nat, size: nat, page: nat)
    requires l2 + REGION <= |s| && page < PAGES && vaOffset / BLOCK + size / BLOCK <= 512
    requires u == Unmapped(s, l2, vaOffset / BLOCK, size / BLOCK, size % BLOCK / PAGE)
    ensures Reachable(u, l2, page) <==> Reachable(s, l2, page) && !InUnmapped(page, vaOffset, size)
  {
    SizeParts(size);
    assert size % BLOCK == size - size / BLOCK * BLOCK;
  }

  /** Marks the blocks of a range invalid, and the pages of a last partial block. */
  method Ttbl2Unmap(t: array<Desc>, l2: nat, vaOffset: nat, size: nat)
    requires vaOffset / BLOCK + size / BLOCK < 512 || (vaOffset / BLOCK + size / BLOCK == 512 && size % BLOCK == 0)
    requires l2 + REGION <= t.Length
    modifies t
    ensures t[..] == Unmapped(old(t[..]), l2, vaOffset / BLOCK, size / BLOCK, size % BLOCK / PAGE)
    ensures forall page: nat :: page < PAGES ==>
      (Reachable(t[..], l2, page) <==> Reachable(old(t[..]), l2, page) && !InUnmapped(page, vaOffset, size))
    ensures forall x :: 0 <= x < t.Length ==>
      t[x] == old(t[x]) || (t[x] == old(t[x]).(valid := false) && l2 <= x < l2 + REGION)
  {
    ghost var u := Unmapped(t[..], l2, vaOffset / BLOCK, size / BLOCK, size % BLOCK / PAGE);
    forall page: nat | page < PAGES
      ensures Reachable(u, l2, page) <==> Reachable(t[..], l2, page) && !InUnmapped(page, vaOffset, size)
    {
      UnmappedPage(t[..], u, l2, vaOffset, size, page);
    }
    var index := vaOffset / BLOCK;
    var last := index + size / BLOCK;
    while index < last
      invariant vaOffset / BLOCK <= index <= last
      invariant t[..] == Unmapped(old(t[..]), l2, vaOffset / BLOCK, index - vaOffset / BLOCK, 0)
    {
      t[l2 + index] := Invalid(t[l2 + index]);
      index := index + 1;
    }
    var rest := size % BLOCK;
    if rest > 0 {
      var ttbl3, j := TtblL3(l2, index), 0;
      while j < rest / PAGE
        invariant j <= rest / PAGE < 512
        invariant t[..] == Unmapped(old(t[..]), l2, vaOffset / BLOCK, size / BLOCK, j)
      {
        t[ttbl3 + j] := Invalid(t[ttbl3 + j]);
        j := j + 1;
      }
    }
  }

  /** The region's tables after mapping the descriptors of a list in order. */
  function Built(s: seq<Desc>, l2: nat, mds: seq<Memmap>): seq<Desc>
  {
    if mds == [] then s else Mapped(Built(s, l2, mds[..|mds| - 1]), l2, mds[|mds| - 1])
  }

  ghost predicate AllInRegion(mds: seq<Memmap>) {
    forall k :: 0 <= k < |mds| ==> mds[k].InRegion()
  }

  method InitTtbl2(t: array<Desc>, root: nat, l2: nat, mds: seq<Memmap>)
    requires l2 + REGION <= t.Length && AllInRegion(mds)
    modifies t
    ensures t[..] == BuiltRegion(old(t[..]), root, l2, mds)
  {
    ghost var s := Cleared(t[..], root, l2);
    Ttbl2InitEntries(t, root, l2);
    Ttbl2Unmap(t, l2, 0, 0x4000_0000);
    assert t[..] == s;
    var i := 0;
    while i < |mds|
      invariant i <= |mds| && t[..] == Built(s, l2, mds[..i])
    {
      Ttbl2Map(t, l2, mds[i]);
      assert mds[..i + 1][..i] == mds[..i];
      i := i + 1;
    }
    assert mds[..i] == mds;
  }

  const L1_ENTRIES := 4

  /** The array is a whole translation table lying in 32-bit physical memory from frame `root` on. */
  ghost predicate Whole(s: seq<Desc>, root: nat) {
    |s| == 512 + REGION * L1_ENTRIES && root * PAGE + 8 * |s| <= 0x1_0000_0000
  }

  function BuiltRegion(s: seq<Desc>, root: nat, l2: nat, mds: seq<Memmap>): (r: seq<Desc>)
    ensures |r| == |s|
  {
    BuiltLength(Cleared(s, root, l2), l2, mds);
    Built(Cleared(s, root, l2), l2, mds)
  }

  lemma {:induction false} BuiltLength(s: seq<Desc>, l2: nat, mds: seq<Memmap>)
    ensures |Built(s, l2, mds)| == |s|
  {
    if mds != [] {
      BuiltLength(s, l2, mds[..|mds| - 1]);
    }
  }

  /** The last descriptor of the list that covers the page. */
  function Found(mds: seq<Memmap>, page: nat): (r: Option<Memmap>)
    ensures r.Some? ==> r.value.Covers(page)
  {
    if mds == [] then None
    else if mds[|mds| - 1].Covers(page) then Some(mds[|mds| - 1])
    else Found(mds[..|mds| - 1], page)
  }

  /** The descriptor found covers the page and no later one does; none found means none covers it. */
  lemma {:induction false} FoundIsLast(mds: seq<Memmap>, page: nat) returns (k: int)
    ensures -1 <= k < |mds| && (forall j :: k < j < |mds| ==> !mds[j].Covers(page))
    ensures if k == -1 then Found(mds, page) == None else Found(mds, page) == Some(mds[k])
  {
    k := |mds| - 1;
    if mds != [] && !mds[k].Covers(page) {
      k := FoundIsLast(mds[..|mds| - 1], page);
    }
  }

  /** Readable, writable and executable, not shareable, with the access flag set: every page a list maps. */
  const GUEST_PAGE := Rights(true, true, true, 0, true)

  /** Where a covering descriptor puts byte `offset` of the page, and how. */
  function Target(md: Memmap, page: nat, offset: nat): Translation
    requires md.Covers(page)
  {
    Output((md.pa + PAGE * (page - md.First())) / PAGE % FRAMES * PAGE + offset, md.attr % 16, GUEST_PAGE)
  }

  /** The meaning of a region's descriptor list. */
  function Meaning(mds: seq<Memmap>, page: nat, offset: nat): Translation {
    match Found(mds, page)
    case None => Fault
    case Some(md) => Target(md, page, offset)
  }

  /** For a page-aligned descriptor below 2^40 the target is its `pa` plus the distance from its `va`. */
  lemma TargetIsOffset(md: Memmap, page: nat, offset: nat)
    requires md.Covers(page) && md.va % PAGE == 0 && md.pa % PAGE == 0 && md.pa + md.size <= 0x100_0000_0000
    requires offset < PAGE
    ensures Target(md, page, offset) == Output(md.pa + (page * PAGE + offset - md.va), md.attr % 16, GUEST_PAGE)
  {
    var k := page - md.First();
    assert md.pa == md.pa / PAGE * PAGE && md.va == md.First() * PAGE;
    assert md.pa + PAGE * k == PAGE * (md.pa / PAGE + k);
    assert k < md.Count() && PAGE * md.Count() <= md.size;
  }

  /** The descriptor `e` of a page maps it as the list says, through the table descriptor `link`,
      which points at frame `frame`. */
  ghost predicate Described(link: Desc, e: Desc, frame: nat, mds: seq<Memmap>, page: nat) {
    && link.base == frame
    && (link.valid ==> link.table)
    && match Found(mds, page)
       case None => !e.valid
       case Some(md) =>
         && link.valid && e.valid && e.table && Zeroed(e)
         && Output(e.base * PAGE, e.mattr, RightsOf(e)) == Target(md, page, 0)
  }

  /** The descriptor of page `k` of block `b` of region `i` lets the guest do everything. */
  predicate OpenPage(t: seq<Desc>, i: nat, b: nat, k: nat) {
    var at := 512 + 262_656 * i + 512 + 512 * b + k;
    at < |t| && var e := t[at]; e.valid && e.table && e.read && e.write && e.af && !e.xn && e.sh == 0 && Zeroed(e)
  }

  /** The reserved fields and the contiguous hint of a page descriptor. */
  predicate Zeroed(e: Desc) {
    e.hint == 0 && e.sbz1 == 0 && e.sbz2 == 0 && e.sbz3 == 0 && e.sbz4 == 0
  }

  ghost predicate PageOk(t: seq<Desc>, root: nat, i: nat, mds: seq<Memmap>, b: nat, k: nat)
    requires i < L1_ENTRIES && |t| == 512 + REGION * L1_ENTRIES && b < 512 && k < 512
  {
    Described(t[TtblL2(i) + b], t[TtblL3(TtblL2(i), b) + k], root + L2Frame(i) + 1 + b, mds, 512 * b + k)
  }

  ghost predicate AllPlaced(mds: seq<Memmap>) {
    forall k :: 0 <= k < |mds| ==> mds[k].InRegion() && mds[k].WellPlaced()
  }

  lemma LinkBase(d: Desc, root: nat, frame: nat)
    requires root + frame < FRAMES
    ensures ConfTable(d, Address(root, ENTRIES * frame), true).base == root + frame
  {
    assert Address(root, ENTRIES * frame) == (root + frame) * PAGE;
  }

  /** The second-level entry of a block in a cleared region: invalid, and pointing at the block's own table. */
  lemma ClearedLink(s: seq<Desc>, root: nat, i: nat, b: nat)
    requires i < L1_ENTRIES && Whole(s, root) && b < 512
    ensures var link := Cleared(s, root, TtblL2(i))[TtblL2(i) + b];
      !link.valid && link.base == root + L2Frame(i) + 1 + b
  {
    var frame := L2Frame(i) + 1 + b;
    assert TtblL3(TtblL2(i), b) == ENTRIES * frame;
    LinkBase(s[TtblL2(i) + b], root, frame);
  }

  lemma ClearedOk(s: seq<Desc>, root: nat, i: nat, b: nat, k: nat)
    requires i < L1_ENTRIES && Whole(s, root) && b < 512 && k < 512
    ensures PageOk(Cleared(s, root, TtblL2(i)), root, i, [], b, k)
  {
    ClearedLink(s, root, i, b);
  }

  /** What mapping a well-placed descriptor does to a page's two descriptors. */
  predicate Becomes(link: Desc, e: Desc, link': Desc, e': Desc, md: Memmap, page: nat) {
    && (link' == link || link' == EnableTable(link))
    && if md.Covers(page)
       then link' == EnableTable(link) && e' == MapPage(e, md.pa + PAGE * (page - md.First()), md.attr)
       else e' == e
  }

  lemma MappedPair(s: seq<Desc>, l2: nat, md: Memmap, b: nat, k: nat, m: seq<Desc>)
    requires md.WellPlaced() && md.InRegion() && b < 512 && k < 512 && l2 + REGION <= |s| && m == Mapped(s, l2, md)
    ensures |m| == |s| && TtblL3(l2, b) + k < |s|
    ensures Becomes(s[l2 + b], s[TtblL3(l2, b) + k], m[l2 + b], m[TtblL3(l2, b) + k], md, 512 * b + k) == true
  {
    MappedPage(s, l2, md, b, k);
    MappedBlock(s, l2, md, b, 512 * b + k);
  }

  lemma MappedOk(s: seq<Desc>, root: nat, i: nat, mds: seq<Memmap>, md: Memmap, b: nat, k: nat, m: seq<Desc>)
    requires i < L1_ENTRIES && Whole(s, root) && b < 512 && k < 512 && m == Mapped(s, TtblL2(i), md)
    requires md.InRegion() && md.WellPlaced() && PageOk(s, root, i, mds, b, k)
    ensures |m| == |s| && PageOk(m, root, i, mds + [md], b, k) == true
  {
    MappedPair(s, TtblL2(i), md, b, k, m);
    PairOk(s, root, i, mds, md, b, k, m);
  }

  lemma PairOk(s: seq<Desc>, root: nat, i: nat, mds: seq<Memmap>, md: Memmap, b: nat, k: nat, m: seq<Desc>)
    requires i < L1_ENTRIES && Whole(s, root) && |m| == |s| && b < 512 && k < 512
    requires Becomes(s[TtblL2(i) + b], s[TtblL3(TtblL2(i), b) + k],
                     m[TtblL2(i) + b], m[TtblL3(TtblL2(i), b) + k], md, 512 * b + k) == true
    requires PageOk(s, root, i, mds, b, k)
    ensures PageOk(m, root, i, mds + [md], b, k) == true
  {
    var l2 := TtblL2(i);
    DescribedAfter(s[l2 + b], s[TtblL3(l2, b) + k], m[l2 + b], m[TtblL3(l2, b) + k],
                   root + L2Frame(i) + 1 + b, mds, md, 512 * b + k);
  }

  lemma DescribedAfter(link: Desc, e: Desc, link': Desc, e': Desc, frame: nat, mds: seq<Memmap>, md: Memmap, page: nat)
    requires Described(link, e, frame, mds, page) == true && Becomes(link, e, link', e', md, page) == true
    ensures Described(link', e', frame, mds + [md], page) == true
  {
    assert (mds + [md])[..|mds|] == mds;
  }

  lemma {:induction false} BuiltOk(s: seq<Desc>, root: nat, i: nat, mds: seq<Memmap>, b: nat, k: nat)
    requires i < L1_ENTRIES && Whole(s, root) && b < 512 && k < 512 && AllPlaced(mds)
    ensures |Built(Cleared(s, root, TtblL2(i)), TtblL2(i), mds)| == |s|
    ensures PageOk(Built(Cleared(s, root, TtblL2(i)), TtblL2(i), mds), root, i, mds, b, k)
  {
    BuiltLength(Cleared(s, root, TtblL2(i)), TtblL2(i), mds);
    if mds == [] {
      ClearedOk(s, root, i, b, k);
    } else {
      var p := mds[..|mds| - 1];
      BuiltOk(s, root, i, p, b, k);
      var before := Built(Cleared(s, root, TtblL2(i)), TtblL2(i), p);
      MappedOk(before, root, i, p, mds[|mds| - 1], b, k, Mapped(before, TtblL2(i), mds[|mds| - 1]));
      assert p + [mds[|mds| - 1]] == mds;
    }
  }

  /** Compiling one region leaves every index outside its tables alone. */
  lemma {:induction false} BuiltElsewhere(s: seq<Desc>, root: nat, l2: nat, mds: seq<Memmap>, x: nat)
    requires AllInRegion(mds) && x < |s| && (x < l2 || x >= l2 + REGION)
    ensures |Built(Cleared(s, root, l2), l2, mds)| == |s| && Built(Cleared(s, root, l2), l2, mds)[x] == s[x]
  {
    if mds != [] {
      BuiltElsewhere(s, root, l2, mds[..|mds| - 1], x);
      MappedElsewhere(Built(Cleared(s, root, l2), l2, mds[..|mds| - 1]), l2, mds[|mds| - 1], x);
    }
  }

  /** The first-level entry of region `i` links its tables, or is invalid for an empty list. */
  ghost predicate LinkOk(t: seq<Desc>, root: nat, i: nat, mds: seq<Memmap>)
    requires i < |t|
  {
    if mds == [] then !t[i].valid else t[i].valid && t[i].table && t[i].base == root + L2Frame(i)
  }

  /** Region `i` of the table means what its list says. */
  ghost predicate RegionMeans(t: seq<Desc>, root: nat, i: nat, mds: seq<Memmap>) {
    && i < L1_ENTRIES && Whole(t, root) && LinkOk(t, root, i, mds)
    && (mds != [] ==> forall b: nat, k: nat :: b < 512 && k < 512 ==> PageOk(t, root, i, mds, b, k))
  }

  /** Compiling region `n` makes it mean its list. */
  lemma RegionBuilt(p: seq<Desc>, root: nat, n: nat, mds: seq<Memmap>)
    requires n < L1_ENTRIES && Whole(p, root) && AllPlaced(mds) && mds != []
    requires p[n].valid && p[n].table && p[n].base == root + L2Frame(n)
    ensures RegionMeans(BuiltRegion(p, root, TtblL2(n), mds), root, n, mds)
  {
    BuiltElsewhere(p, root, TtblL2(n), mds, n);
    forall b: nat, k: nat | b < 512 && k < 512
      ensures PageOk(BuiltRegion(p, root, TtblL2(n), mds), root, n, mds, b, k)
    {
      BuiltOk(p, root, n, mds, b, k);
    }
  }

  /** Compiling region `n` keeps what an earlier one means. */
  lemma RegionKept(p: seq<Desc>, root: nat, n: nat, mds: seq<Memmap>, i: nat, was: seq<Memmap>)
    requires i < n < L1_ENTRIES && AllInRegion(mds) && RegionMeans(p, root, i, was)
    ensures RegionMeans(BuiltRegion(p, root, TtblL2(n), mds), root, i, was)
  {
    var r := BuiltRegion(p, root, TtblL2(n), mds);
    BuiltElsewhere(p, root, TtblL2(n), mds, i);
    forall b: nat, k: nat | was != [] && b < 512 && k < 512
      ensures PageOk(r, root, i, was, b, k)
    {
      assert PageOk(p, root, i, was, b, k);
      PageKept(p, root, n, mds, i, was, b, k);
    }
  }

  lemma PageKept(p: seq<Desc>, root: nat, n: nat, mds: seq<Memmap>, i: nat, was: seq<Memmap>, b: nat, k: nat)
    requires i < n < L1_ENTRIES && AllInRegion(mds) && Whole(p, root) && b < 512 && k < 512
    requires PageOk(p, root, i, was, b, k)
    ensures PageOk(BuiltRegion(p, root, TtblL2(n), mds), root, i, was, b, k) == true
  {
    BuiltElsewhere(p, root, TtblL2(n), mds, TtblL2(i) + b);
    BuiltElsewhere(p, root, TtblL2(n), mds, TtblL3(TtblL2(i), b) + k);
    SamePage(p, BuiltRegion(p, root, TtblL2(n), mds), root, i, was, b, k);
  }

  lemma SamePage(p: seq<Desc>, r: seq<Desc>, root: nat, i: nat, mds: seq<Memmap>, b: nat, k: nat)
    requires i < L1_ENTRIES && Whole(p, root) && |r| == |p| && b < 512 && k < 512
    requires r[TtblL2(i) + b] == p[TtblL2(i) + b]
    requires r[TtblL3(TtblL2(i), b) + k] == p[TtblL3(TtblL2(i), b) + k]
    requires PageOk(p, root, i, mds, b, k)
    ensures PageOk(r, root, i, mds, b, k) == true
  {
  }

  /** Writing the first-level entry of region `n` keeps what the earlier regions mean. */
  lemma LinkKept(p: seq<Desc>, root: nat, n: nat, link: Desc, i: nat, was: seq<Memmap>)
    requires i < n < L1_ENTRIES && RegionMeans(p, root, i, was)
    ensures RegionMeans(p[n := link], root, i, was)
  {
    var r := p[n := link];
    forall b: nat, k: nat | was != [] && b < 512 && k < 512
      ensures PageOk(r, root, i, was, b, k)
    {
      assert PageOk(p, root, i, was, b, k);
    }
  }

  lemma WalkFollows(t: seq<Desc>, root: nat, i: nat, mds: seq<Memmap>, b: nat, k: nat, offset: nat)
    requires i < L1_ENTRIES && Whole(t, root) && b < 512 && k < 512
    requires LinkOk(t, root, i, mds) && (mds != [] ==> PageOk(t, root, i, mds, b, k))
    ensures Walk(t, root, i, b, k, offset) == Meaning(mds, 512 * b + k, offset)
  {
    if mds != [] {
      assert Entry(t, root, root, i) == t[i];
      assert Entry(t, root, root + L2Frame(i), b) == t[TtblL2(i) + b];
      assert Entry(t, root, root + L2Frame(i) + 1 + b, k) == t[TtblL3(TtblL2(i), b) + k];
    }
  }

  lemma WalkIsMeaning(t: seq<Desc>, root: nat, i: nat, mds: seq<Memmap>, b: nat, k: nat, offset: nat)
    requires RegionMeans(t, root, i, mds) && b < 512 && k < 512
    ensures Walk(t, root, i, b, k, offset) == Meaning(mds, 512 * b + k, offset)
  {
    WalkFollows(t, root, i, mds, b, k, offset);
  }

  /** Compiling a region leaves the first-level table alone. */
  lemma LinksKept(p: seq<Desc>, root: nat, n: nat, mds: seq<Memmap>)
    requires n < L1_ENTRIES && Whole(p, root) && AllInRegion(mds)
    ensures forall x :: 0 <= x < 512 ==> BuiltRegion(p, root, TtblL2(n), mds)[x] == p[x]
  {
    forall x | 0 <= x < 512
      ensures BuiltRegion(p, root, TtblL2(n), mds)[x] == p[x]
    {
      BuiltElsewhere(p, root, TtblL2(n), mds, x);
    }
  }

  /** The regions before `n` mean their lists. */
  ghost predicate UpTo(t: seq<Desc>, root: nat, n: nat, lists: seq<seq<Memmap>>)
    requires n <= |lists|
  {
    forall j :: 0 <= j < n ==> RegionMeans(t, root, j, lists[j])
  }

  lemma LinkWritten(p: seq<Desc>, root: nat, n: nat, link: Desc, lists: seq<seq<Memmap>>)
    requires n < |lists| && n < L1_ENTRIES && n < |p| && UpTo(p, root, n, lists)
    ensures UpTo(p[n := link], root, n, lists)
  {
    forall j | 0 <= j < n
      ensures RegionMeans(p[n := link], root, j, lists[j])
    {
      LinkKept(p, root, n, link, j, lists[j]);
    }
  }

  lemma RegionAdded(p: seq<Desc>, root: nat, n: nat, lists: seq<seq<Memmap>>)
    requires n < |lists| && n < L1_ENTRIES && Whole(p, root) && UpTo(p, root, n, lists)
    requires AllPlaced(lists[n]) && lists[n] != [] && p[n].valid && p[n].table && p[n].base == root + L2Frame(n)
    ensures UpTo(BuiltRegion(p, root, TtblL2(n), lists[n]), root, n + 1, lists)
  {
    RegionBuilt(p, root, n, lists[n]);
    forall j | 0 <= j < n
      ensures RegionMeans(BuiltRegion(p, root, TtblL2(n), lists[n]), root, j, lists[j])
    {
      RegionKept(p, root, n, lists[n], j, lists[j]);
    }
  }

  /**
   * Compiles one list per 1 GB region, an empty list leaving it unmapped. For every list of well-placed descriptors,
   * and whatever the array held before, walking the table at any intermediate physical address of a listed region then
   * gives what the list says: a covered page's own address and memory type, readable, writable and executable. A
   * region without a list keeps its first-level entry, and faults if that was invalid.
   */
  method InitTtbl(t: array<Desc>, root: nat, lists: seq<seq<Memmap>>)
    requires |lists| <= L1_ENTRIES && Whole(t[..], root)
    requires forall j :: 0 <= j < |lists| ==> AllPlaced(lists[j])
    modifies t
    ensures forall i, b: nat, k: nat, offset: nat :: 0 <= i < |lists| && b < 512 && k < 512 ==>
      Walk(t[..], root, i, b, k, offset) == Meaning(lists[i], 512 * b + k, offset)
    ensures forall i: nat, b: nat, k: nat ::
      i < |lists| && b < 512 && k < 512 && Found(lists[i], 512 * b + k).Some? ==> OpenPage(t[..], i, b, k)
    ensures forall x :: |lists| <= x < 512 ==> t[x] == old(t[x])
    ensures forall i, b: nat, k: nat, offset: nat ::
      |lists| <= i < L1_ENTRIES && !old(t[i]).valid && b < 512 && k < 512 ==>
      Walk(t[..], root, i, b, k, offset) == Fault
  {
    var i := 0;
    while i < |lists|
      invariant i <= |lists| && Whole(t[..], root) && UpTo(t[..], root, i, lists)
      invariant forall x :: i <= x < 512 ==> t[x] == old(t[x])
    {
      InitRegion(t, root, i, lists);
      i := i + 1;
    }
    forall i, b: nat, k: nat, offset: nat | 0 <= i < |lists| && b < 512 && k < 512
      ensures Walk(t[..], root, i, b, k, offset) == Meaning(lists[i], 512 * b + k, offset)
    {
      WalkIsMeaning(t[..], root, i, lists[i], b, k, offset);
    }
    forall i: nat, b: nat, k: nat | i < |lists| && b < 512 && k < 512 && Found(lists[i], 512 * b + k).Some?
      ensures OpenPage(t[..], i, b, k)
    {
      assert RegionMeans(t[..], root, i, lists[i]) && PageOk(t[..], root, i, lists[i], b, k);
    }
    forall i, b: nat, k: nat, offset: nat | |lists| <= i < L1_ENTRIES && !old(t[i]).valid && b < 512 && k < 512
      ensures Walk(t[..], root, i, b, k, offset) == Fault
    {
      assert t[..][i] == old(t[i]);
      assert Entry(t[..], root, root, i) == t[..][i];
    }
  }

  /** One round of the loop: links and compiles region `i`, or leaves it invalid. */
  method InitRegion(t: array<Desc>, root: nat, i: nat, lists: seq<seq<Memmap>>)
    requires i < |lists| <= L1_ENTRIES && Whole(t[..], root) && AllPlaced(lists[i]) && UpTo(t[..], root, i, lists)
    modifies t
    ensures Whole(t[..], root) && UpTo(t[..], root, i + 1, lists)
    ensures forall x :: i < x < 512 ==> t[x] == old(t[x])
  {
    var link := if lists[i] == [] then ConfTable(t[i], 0, false) else ConfTable(t[i], Address(root, TtblL2(i)), true);
    LinkBase(t[i], root, L2Frame(i));
    ghost var p := t[..][i := link];
    LinkWritten(t[..], root, i, link, lists);
    t[i] := link;
    assert t[..] == p;
    if lists[i] == [] {
      assert RegionMeans(p, root, i, lists[i]);
    } else {
      InitTtbl2(t, root, TtblL2(i), lists[i]);
      RegionAdded(p, root, i, lists);
      LinksKept(p, root, i, lists[i]);
      assert forall x :: i < x < 512 ==> t[..][x] == p[x];
    }
  }

  lemma BuiltOne(s: seq<Desc>, l2: nat, md: Memmap)
    ensures Built(s, l2, [md]) == Mapped(s, l2, md)
  {
    assert [md][..0] == [];
    assert Built(s, l2, [md][..0]) == s;
  }

  /** What an ill-placed descriptor does at the block after the one it starts in: up to 512 pages leave
      that block's table descriptor alone, more map its first page to the 513th page of the target. */
  lemma IllPlacedBlock(s: seq<Desc>, l2: nat, md: Memmap, b: nat)
    requires md.InRegion() && !md.WellPlaced() && b == md.va / BLOCK + 1 && l2 + REGION <= |s|
    ensures b < 512 && md.Covers(512 * b) && 512 * b - md.First() < 512
    ensures md.Count() <= 512 ==> Mapped(s, l2, md)[l2 + b] == s[l2 + b]
    ensures md.Count() > 512 ==> Mapped(s, l2, md)[l2 + b] == EnableTable(s[l2 + b])
    ensures md.Count() > 512 ==> Mapped(s, l2, md)[TtblL3(l2, b)].base == (md.pa + PAGE * 512) / PAGE % FRAMES
  {
    HeadParts(md, 0);
  }

  predicate WrongAt(r: seq<Desc>, i: nat, link: Desc, md: Memmap, b: nat)
    requires i < L1_ENTRIES && |r| == 512 + REGION * L1_ENTRIES && b < 512 && md.Covers(512 * b)
  {
    || r[TtblL2(i) + b] == link
    || (r[TtblL2(i) + b] == EnableTable(link)
        && r[TtblL3(TtblL2(i), b)].base != (md.pa + PAGE * (512 * b - md.First())) / PAGE % FRAMES)
  }

  lemma IllPlacedWrong(c: seq<Desc>, m: seq<Desc>, i: nat, md: Memmap, b: nat)
    requires i < L1_ENTRIES && |c| == 512 + REGION * L1_ENTRIES && m == Mapped(c, TtblL2(i), md)
    requires md.InRegion() && !md.WellPlaced() && b == md.va / BLOCK + 1
    ensures |m| == |c| && b < 512 && md.Covers(512 * b) && WrongAt(m, i, c[TtblL2(i) + b], md, b) == true
  {
    IllPlacedBlock(c, TtblL2(i), md, b);
    WrongEntries(c, m, i, md, b);
  }

  lemma WrongEntries(c: seq<Desc>, m: seq<Desc>, i: nat, md: Memmap, b: nat)
    requires i < L1_ENTRIES && |m| == |c| == 512 + REGION * L1_ENTRIES
    requires b < 512 && md.Covers(512 * b) && 512 * b - md.First() < 512
    requires md.Count() <= 512 ==> m[TtblL2(i) + b] == c[TtblL2(i) + b]
    requires md.Count() > 512 ==> m[TtblL2(i) + b] == EnableTable(c[TtblL2(i) + b])
    requires md.Count() > 512 ==> m[TtblL3(TtblL2(i), b)].base == (md.pa + PAGE * 512) / PAGE % FRAMES
    ensures WrongAt(m, i, c[TtblL2(i) + b], md, b) == true
  {
    FramesDiffer(md.pa, 512, 512 * b - md.First());
  }

  /** The same, seen from an empty region: the block's table descriptor stays invalid, or leads to a wrong page. */
  lemma IllPlacedEntries(p: seq<Desc>, root: nat, i: nat, md: Memmap, b: nat, r: seq<Desc>) returns (link: Desc)
    requires i < L1_ENTRIES && Whole(p, root) && md.InRegion() && !md.WellPlaced() && b == md.va / BLOCK + 1
    requires r == BuiltRegion(p, root, TtblL2(i), [md])
    ensures b < 512 && md.Covers(512 * b) && !link.valid && link.base == root + L2Frame(i) + 1 + b
    ensures |r| == |p| && WrongAt(r, i, link, md, b) == true
  {
    var c := Cleared(p, root, TtblL2(i));
    BuiltOne(c, TtblL2(i), md);
    IllPlacedWrong(c, Mapped(c, TtblL2(i), md), i, md, b);
    link := c[TtblL2(i) + b];
    ClearedLink(p, root, i, b);
  }

  /** A descriptor that starts inside a block and runs past its end is compiled wrongly: at the next
      block's first page the walk faults, or yields another page's address. */
  lemma IllPlacedBreaks(p: seq<Desc>, root: nat, i: nat, md: Memmap) returns (b: nat)
    requires i < L1_ENTRIES && Whole(p, root) && LinkOk(p, root, i, [md]) && md.InRegion() && !md.WellPlaced()
    ensures b < 512
    ensures Walk(BuiltRegion(p, root, TtblL2(i), [md]), root, i, b, 0, 0) != Meaning([md], 512 * b, 0)
  {
    b := md.va / BLOCK + 1;
    var r := BuiltRegion(p, root, TtblL2(i), [md]);
    var link := IllPlacedEntries(p, root, i, md, b, r);
    BuiltWrong(p, root, i, link, md, b, r);
  }

  lemma BuiltWrong(p: seq<Desc>, root: nat, i: nat, link: Desc, md: Memmap, b: nat, r: seq<Desc>)
    requires i < L1_ENTRIES && Whole(p, root) && LinkOk(p, root, i, [md]) && AllInRegion([md])
    requires r == BuiltRegion(p, root, TtblL2(i), [md]) && b < 512 && md.Covers(512 * b)
    requires !link.valid && link.base == root + L2Frame(i) + 1 + b && WrongAt(r, i, link, md, b) == true
    ensures Walk(r, root, i, b, 0, 0) != Meaning([md], 512 * b, 0)
  {
    BuiltElsewhere(p, root, TtblL2(i), [md], i);
    WalkWrong(r, root, i, link, md, b);
  }

  lemma WalkWrong(r: seq<Desc>, root: nat, i: nat, link: Desc, md: Memmap, b: nat)
    requires i < L1_ENTRIES && Whole(r, root) && LinkOk(r, root, i, [md]) && b < 512 && md.Covers(512 * b)
    requires !link.valid && link.base == root + L2Frame(i) + 1 + b
    requires WrongAt(r, i, link, md, b) == true
    ensures Walk(r, root, i, b, 0, 0) != Meaning([md], 512 * b, 0)
  {
    assert Found([md], 512 * b) == Some(md);
    assert Entry(r, root, root + L2Frame(i), b) == r[TtblL2(i) + b];
    assert Entry(r, root, root + L2Frame(i) + 1 + b, 0) == r[TtblL3(TtblL2(i), b)];
  }

  lemma FramesDiffer(pa: nat, x: nat, y: nat)
    requires y < x < FRAMES
    ensures (pa + PAGE * x) / PAGE % FRAMES != (pa + PAGE * y) / PAGE % FRAMES
  {
    assert (pa + PAGE * x) / PAGE == pa / PAGE + x && (pa + PAGE * y) / PAGE == pa / PAGE + y;
  }

  /** A descriptor inside its region is compiled correctly exactly when it is well placed. */
  lemma PlacementIsExact(p: seq<Desc>, root: nat, i: nat, md: Memmap)
    requires i < L1_ENTRIES && Whole(p, root) && LinkOk(p, root, i, [md]) && md.InRegion()
    ensures md.WellPlaced() <==>
      forall b: nat, k: nat, offset: nat :: b < 512 && k < 512 ==>
        Walk(BuiltRegion(p, root, TtblL2(i), [md]), root, i, b, k, offset) == Meaning([md], 512 * b + k, offset)
  {
    if md.WellPlaced() {
      RegionBuilt(p, root, i, [md]);
      forall b: nat, k: nat, offset: nat | b < 512 && k < 512
        ensures Walk(BuiltRegion(p, root, TtblL2(i), [md]), root, i, b, k, offset) == Meaning([md], 512 * b + k, offset)
      {
        WalkIsMeaning(BuiltRegion(p, root, TtblL2(i), [md]), root, i, [md], b, k, offset);
      }
    } else {
      var b := IllPlacedBreaks(p, root, i, md);
      assert Walk(BuiltRegion(p, root, TtblL2(i), [md]), root, i, b, 0, 0) != Meaning([md], 512 * b + 0, 0);
    }
  }
}
