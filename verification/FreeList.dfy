/** The free list of the Hyp heap as a mathematical object: an address-ordered
    sequence of blocks, measured in header-sized units, whose element 0 is the
    zero-sized anchor `freep_base`. */
module FreeList {

  datatype Block = Block(addr: nat, size: nat) {
    function End(): nat {
      addr + size
    }
    predicate Holds(unit: nat) {
      addr <= unit < End()
    }
  }

  /** Address-ordered, only the anchor is empty, and no two blocks touch. */
  ghost predicate Canonical(c: seq<Block>) {
    && |c| > 0
    && c[0].size == 0
    && (forall i :: 1 <= i < |c| ==> c[i].size > 0)
    && (forall i, j {:trigger Below(c[i], c[j])} :: 0 <= i < j < |c| ==> Below(c[i], c[j]))
  }

  /** `y` starts above the end of `x`, with a gap between them. */
  predicate Below(x: Block, y: Block) {
    x.End() < y.addr
  }

  ghost predicate Covers(c: seq<Block>, unit: nat) {
    exists i :: 0 <= i < |c| && c[i].Holds(unit)
  }

  /** The index reached from `f` after `d` steps round the ring of `n` nodes. */
  function Around(f: nat, d: nat, n: nat): (i: nat)
    requires f < n && d <= n
    ensures i < n
  {
    if f + d < n then f + d else f + d - n
  }

  function Next(c: seq<Block>, i: nat): (addr: nat)
    requires i < |c|
  {
    c[Around(i, 1, |c|)].addr
  }

  /** The steps round the ring from `f` to `i`, a whole turn if they are the same node. */
  function Steps(f: nat, i: nat, n: nat): (d: nat)
    requires f < n && i < n
    ensures 1 <= d <= n && Around(f, d, n) == i
  {
    if f < i then i - f else i + n - f
  }

  /** `i` is the first node after `f` in ring order whose block has `units` units. */
  ghost predicate NextFit(c: seq<Block>, f: nat, units: nat, i: nat)
    requires f < |c| && i < |c|
  {
    c[i].size >= units && Unfit(c, f, units, Steps(f, i, |c|))
  }

  /** No node met in the first `d - 1` steps after `f` is big enough. */
  ghost predicate Unfit(c: seq<Block>, f: nat, units: nat, d: nat)
    requires f < |c| && d <= |c|
  {
    forall e :: 1 <= e < d ==> c[Around(f, e, |c|)].size < units
  }

  ghost predicate HasFit(c: seq<Block>, units: nat) {
    exists i :: 0 <= i < |c| && c[i].size >= units
  }

  /** Node `k` is met after node `f` and before node `i` on the way round the ring; all others are, if those are one. */
  predicate Between(f: nat, k: nat, i: nat) {
    if f < i then f < k < i else k > f || k < i
  }

  lemma NextFitIs(c: seq<Block>, f: nat, units: nat, i: nat)
    requires f < |c| && i < |c|
    ensures NextFit(c, f, units, i) <==>
      c[i].size >= units && forall k: nat :: k < |c| && Between(f, k, i) ==> c[k].size < units
  {
    if NextFit(c, f, units, i) {
      forall k: nat | k < |c| && Between(f, k, i)
        ensures c[k].size < units
      {
        var e := Steps(f, k, |c|);
        assert Around(f, e, |c|) == k && e < Steps(f, i, |c|);
      }
    }
    if c[i].size >= units && forall k: nat :: k < |c| && Between(f, k, i) ==> c[k].size < units {
      forall e | 1 <= e < Steps(f, i, |c|)
        ensures c[Around(f, e, |c|)].size < units
      {
        assert Between(f, Around(f, e, |c|), i);
      }
    }
  }

  /** From a node that is not big enough, short of a whole turn, the search steps on. */
  lemma StepOn(c: seq<Block>, f: nat, units: nat, k: nat)
    requires f < |c| && k < |c| && k != f && c[k].size < units && Unfit(c, f, units, Steps(f, k, |c|))
    ensures Steps(f, Around(k, 1, |c|), |c|) == Steps(f, k, |c|) + 1
    ensures Unfit(c, f, units, Steps(f, Around(k, 1, |c|), |c|))
  {
  }

  /** A whole turn round the ring visits every node. */
  lemma RingUnfit(c: seq<Block>, f: nat, units: nat)
    requires f < |c| && Unfit(c, f, units, Steps(f, f, |c|)) && c[f].size < units
    ensures !HasFit(c, units)
  {
    forall i | 0 <= i < |c|
      ensures c[i].size < units
    {
      var e := Steps(f, i, |c|);
      assert Around(f, e, |c|) == i;
    }
  }

  lemma AnchorLowest(c: seq<Block>, i: nat)
    requires Canonical(c) && i < |c|
    ensures c[0].addr <= c[i].addr
  {
    assert i > 0 ==> Below(c[0], c[i]);
  }

  lemma AddressesDiffer(c: seq<Block>, i: nat, k: nat)
    requires Canonical(c) && i < |c| && k < |c|
    ensures c[i].addr == c[k].addr <==> i == k
  {
    assert i < k ==> Below(c[i], c[k]);
    assert k < i ==> Below(c[k], c[i]);
  }

  /** Some node holds the whole released block. */
  lemma ReleasedFits(c: seq<Block>, j: nat, b: Block, units: nat)
    requires FitsAfter(c, j, b) && units <= b.size
    ensures HasFit(Release(c, j, b), units)
  {
    var d := Release(c, j, b);
    assert d[JoinIndex(c, j, b)] == Joined(c, j, b);
  }

  /** Takes `units` units from the tail end of block `i`. */
  function Carve(c: seq<Block>, i: nat, units: nat): seq<Block>
    requires i < |c| && units <= c[i].size
  {
    if c[i].size == units then seq(|c| - 1, k requires 0 <= k < |c| - 1 => c[if k < i then k else k + 1])
    else c[i := Block(c[i].addr, c[i].size - units)]
  }

  /** `b` lies strictly between node `j` and the node after it. */
  ghost predicate FitsAfter(c: seq<Block>, j: nat, b: Block) {
    && j < |c|
    && c[j].addr < b.addr
    && c[j].End() <= b.addr
    && (j + 1 < |c| ==> b.End() <= c[j + 1].addr)
  }

  /** Where the block freed behind node `j` ends up: in node `j` itself if it touches it. */
  function JoinIndex(c: seq<Block>, j: nat, b: Block): nat
    requires j < |c|
  {
    if c[j].End() == b.addr then j else j + 1
  }

  predicate JoinsUp(c: seq<Block>, j: nat, b: Block) {
    j + 1 < |c| && b.End() == c[j + 1].addr
  }

  /** The freed block together with whichever neighbours it touches. */
  function Joined(c: seq<Block>, j: nat, b: Block): Block
    requires j < |c|
  {
    var size := if JoinsUp(c, j, b) then b.size + c[j + 1].size else b.size;
    if c[j].End() == b.addr then Block(c[j].addr, c[j].size + size) else Block(b.addr, size)
  }

  /** How many more nodes the list has after the release: -1, 0 or 1. */
  function Shift(c: seq<Block>, j: nat, b: Block): int
    requires j < |c|
  {
    JoinIndex(c, j, b) - j - (if JoinsUp(c, j, b) then 1 else 0)
  }

  /** Puts `b` back behind node `j`, joining it to whichever neighbours it touches. */
  function Release(c: seq<Block>, j: nat, b: Block): seq<Block>
    requires j < |c|
  {
    var at, shift := JoinIndex(c, j, b), Shift(c, j, b);
    seq(|c| + shift, k requires 0 <= k < |c| + shift =>
      if k < at then c[k] else if k == at then Joined(c, j, b) else c[k - shift])
  }

  /** `d` is the list `c` with the block `b` released above all its nodes. */
  ghost predicate Extends(c: seq<Block>, b: Block, d: seq<Block>) {
    |c| > 0 && FitsAfter(c, |c| - 1, b) && d == Release(c, |c| - 1, b)
  }

  lemma CarveCanonical(c: seq<Block>, i: nat, units: nat)
    requires Canonical(c) && i < |c| && 0 < units <= c[i].size
    ensures Canonical(Carve(c, i, units)) && Carve(c, i, units)[0] == c[0]
  {
    var d := Carve(c, i, units);
    forall k, k' | 0 <= k < k' < |d|
      ensures Below(d[k], d[k'])
    {
      if c[i].size == units {
        assert Below(c[if k < i then k else k + 1], c[if k' < i then k' else k' + 1]);
      } else {
        assert Below(c[k], c[k']);
      }
    }
  }

  lemma CarveBefore(c: seq<Block>, i: nat, units: nat)
    requires 0 < i < |c| && units <= c[i].size
    ensures |Carve(c, i, units)| > i - 1 && Carve(c, i, units)[i - 1] == c[i - 1]
  {
  }

  lemma CarveCovers(c: seq<Block>, i: nat, units: nat, u: nat)
    requires Canonical(c) && i < |c| && 0 < units <= c[i].size
    ensures Covers(Carve(c, i, units), u) <==> Covers(c, u) && !(c[i].End() - units <= u < c[i].End())
  {
    var d := Carve(c, i, units);
    if k: nat :| k < |d| && d[k].Holds(u) {
      CarveHolds(c, i, units, u, if c[i].size == units && k >= i then k + 1 else k);
    }
    if k: nat :| k < |c| && c[k].Holds(u) {
      CarveHolds(c, i, units, u, k);
    }
  }

  /** If node `k` holds the unit before, exactly the carved units are lost from it. */
  lemma CarveHolds(c: seq<Block>, i: nat, units: nat, u: nat, k: nat)
    requires Canonical(c) && i < |c| && 0 < units <= c[i].size && k < |c|
    ensures var d := Carve(c, i, units);
      && (k < i ==> d[k] == c[k])
      && (k > i ==> d[if c[i].size == units then k - 1 else k] == c[k])
      && (c[k].Holds(u) ==> Covers(c, u))
      && (c[k].Holds(u) && k != i ==> Covers(d, u) && !(c[i].End() - units <= u < c[i].End()))
      && (c[i].Holds(u) && u < c[i].End() - units ==> Covers(d, u))
  {
    var d := Carve(c, i, units);
    if k < i {
      assert Below(c[k], c[i]);
      assert c[k].Holds(u) ==> d[k].Holds(u);
    } else if k > i {
      assert Below(c[i], c[k]);
      assert c[k].Holds(u) ==> d[if c[i].size == units then k - 1 else k].Holds(u);
    }
    assert c[i].Holds(u) && u < c[i].End() - units ==> d[i].Holds(u);
  }

  /** The joined block keeps clear of every node on either side. */
  lemma JoinedApart(c: seq<Block>, j: nat, b: Block)
    requires Canonical(c) && FitsAfter(c, j, b) && b.size > 0
    ensures JoinIndex(c, j, b) > 0 && Joined(c, j, b).size > 0
    ensures forall k :: 0 <= k < JoinIndex(c, j, b) ==> c[k].End() < Joined(c, j, b).addr
    ensures forall k :: j < k < |c| && (k == j + 1 ==> !JoinsUp(c, j, b)) ==> Joined(c, j, b).End() < c[k].addr
  {
    var m := Joined(c, j, b);
    assert m.End() == if JoinsUp(c, j, b) then c[j + 1].End() else b.End();
    forall k | 0 <= k < JoinIndex(c, j, b)
      ensures c[k].End() < m.addr
    {
      assert k < j ==> Below(c[k], c[j]);
    }
    forall k | j < k < |c| && (k == j + 1 ==> !JoinsUp(c, j, b))
      ensures m.End() < c[k].addr
    {
      assert k > j + 1 ==> Below(c[j + 1], c[k]);
    }
  }

  lemma ReleaseCanonical(c: seq<Block>, j: nat, b: Block)
    requires Canonical(c) && FitsAfter(c, j, b) && b.size > 0
    ensures Canonical(Release(c, j, b)) && Release(c, j, b)[0] == c[0]
  {
    var d, at, shift := Release(c, j, b), JoinIndex(c, j, b), Shift(c, j, b);
    JoinedApart(c, j, b);
    forall i, k | 0 <= i < k < |d|
      ensures Below(d[i], d[k])
    {
      if i < at && k > at {
        assert Below(c[i], c[k - shift]);
      }
    }
  }

  lemma ReleaseCovers(c: seq<Block>, j: nat, b: Block, u: nat)
    requires Canonical(c) && FitsAfter(c, j, b) && b.size > 0
    ensures Covers(Release(c, j, b), u) <==> Covers(c, u) || b.Holds(u)
  {
    if Covers(Release(c, j, b), u) {
      ReleaseAddsNothingElse(c, j, b, u);
    }
    if Covers(c, u) || b.Holds(u) {
      ReleaseLosesNothing(c, j, b, u);
    }
  }

  lemma ReleaseCoversAll(c: seq<Block>, j: nat, b: Block)
    requires Canonical(c) && FitsAfter(c, j, b) && b.size > 0
    ensures forall u: nat :: Covers(Release(c, j, b), u) <==> Covers(c, u) || b.Holds(u)
  {
    forall u: nat
      ensures Covers(Release(c, j, b), u) <==> Covers(c, u) || b.Holds(u)
    {
      ReleaseCovers(c, j, b, u);
    }
  }

  lemma ReleaseAddsNothingElse(c: seq<Block>, j: nat, b: Block, u: nat)
    requires FitsAfter(c, j, b) && Covers(Release(c, j, b), u)
    ensures Covers(c, u) || b.Holds(u)
  {
    var d, at, shift := Release(c, j, b), JoinIndex(c, j, b), Shift(c, j, b);
    var k :| 0 <= k < |d| && d[k].Holds(u);
    if k < at {
      assert c[k].Holds(u);
    } else if k > at {
      assert c[k - shift].Holds(u);
    } else {
      assert b.Holds(u) || c[j].Holds(u) || (JoinsUp(c, j, b) && c[j + 1].Holds(u));
    }
  }

  lemma ReleaseLosesNothing(c: seq<Block>, j: nat, b: Block, u: nat)
    requires FitsAfter(c, j, b) && (Covers(c, u) || b.Holds(u))
    ensures Covers(Release(c, j, b), u)
  {
    var d, at, shift := Release(c, j, b), JoinIndex(c, j, b), Shift(c, j, b);
    if b.Holds(u) {
      assert d[at].Holds(u);
    } else {
      var k :| 0 <= k < |c| && c[k].Holds(u);
      if k < at {
        assert d[k].Holds(u);
      } else if k + shift > at {
        assert d[k + shift].Holds(u);
      } else {
        assert d[at].Holds(u);
      }
    }
  }

  /** No node of `c` overlaps `x`. */
  ghost predicate Apart(c: seq<Block>, x: Block) {
    forall i :: 0 <= i < |c| ==> Clear(c[i], x)
  }

  predicate Clear(b: Block, x: Block) {
    b.End() <= x.addr || x.End() <= b.addr
  }

  /** Every node but the anchor lies between `lo` and `hi`. */
  ghost predicate Within(c: seq<Block>, lo: nat, hi: nat) {
    forall i :: 1 <= i < |c| ==> lo <= c[i].addr && c[i].End() <= hi
  }

  lemma ReleaseApart(c: seq<Block>, j: nat, b: Block, x: Block)
    requires FitsAfter(c, j, b) && Apart(c, x) && Clear(b, x) && b.size > 0 && x.size > 0
    ensures Apart(Release(c, j, b), x)
  {
    var d, at, shift := Release(c, j, b), JoinIndex(c, j, b), Shift(c, j, b);
    assert Clear(c[j], x) && (JoinsUp(c, j, b) ==> Clear(c[j + 1], x));
    assert Clear(Joined(c, j, b), x);
    assert forall k :: 0 <= k < |d| ==>
      d[k] == if k < at then c[k] else if k == at then Joined(c, j, b) else c[k - shift];
  }

  lemma ReleaseWithin(c: seq<Block>, j: nat, b: Block, lo: nat, hi: nat)
    requires FitsAfter(c, j, b) && Within(c, lo, hi) && lo <= b.addr && b.End() <= hi && c[0].End() < b.addr
    ensures Within(Release(c, j, b), lo, hi)
  {
    var d, at, shift := Release(c, j, b), JoinIndex(c, j, b), Shift(c, j, b);
    assert lo <= Joined(c, j, b).addr && Joined(c, j, b).End() <= hi;
    assert forall k :: 0 <= k < |d| ==>
      d[k] == if k < at then c[k] else if k == at then Joined(c, j, b) else c[k - shift];
  }

  lemma CarveApart(c: seq<Block>, i: nat, units: nat, x: Block)
    requires i < |c| && units <= c[i].size && Apart(c, x)
    ensures Apart(Carve(c, i, units), x) && Clear(Block(c[i].End() - units, units), x)
  {
    assert Clear(c[i], x);
  }

  lemma CarveWithin(c: seq<Block>, i: nat, units: nat, lo: nat, hi: nat)
    requires 1 <= i < |c| && units <= c[i].size && Within(c, lo, hi)
    ensures Within(Carve(c, i, units), lo, hi)
    ensures lo <= c[i].End() - units && c[i].End() <= hi
  {
    assert lo <= c[i].addr && c[i].End() <= hi;
  }

  lemma CarvedOff(c: seq<Block>, i: nat, units: nat)
    requires Canonical(c) && i < |c| && 0 < units <= c[i].size
    ensures Apart(Carve(c, i, units), Block(c[i].End() - units, units))
  {
    var d := Carve(c, i, units);
    forall k | 0 <= k < |d|
      ensures Clear(d[k], Block(c[i].End() - units, units))
    {
      if k < i {
        assert Below(c[k], c[i]);
      } else if c[i].size == units {
        assert Below(c[i], c[k + 1]);
      } else if k > i {
        assert Below(c[i], c[k]);
      }
    }
  }

  /** A canonical list is determined by the units it covers: it is the
      maximal-interval form of the free space. */
  lemma CanonicalIsUnique(a: seq<Block>, b: seq<Block>)
    requires Canonical(a) && Canonical(b) && a[0] == b[0]
    requires forall u: nat :: Covers(a, u) <==> Covers(b, u)
    ensures a == b
  {
    PrefixAgrees(a, b, |a|);
    PrefixAgrees(b, a, |b|);
  }

  lemma {:induction false} PrefixAgrees(a: seq<Block>, b: seq<Block>, n: nat)
    requires Canonical(a) && Canonical(b) && a[0] == b[0] && n <= |a|
    requires forall u: nat :: Covers(a, u) <==> Covers(b, u)
    ensures n <= |b| && a[..n] == b[..n]
  {
    if n > 1 {
      var i := n - 1;
      PrefixAgrees(a, b, i);
      assert forall k :: 0 <= k < i ==> a[..i][k] == b[..i][k];
      assert forall k :: 0 <= k < i ==> a[k] == b[k];
      StartsAgree(a, b, i);
      StartsAgree(b, a, i);
      EndsAgree(a, b, i);
      EndsAgree(b, a, i);
      assert a[..n] == a[..i] + [a[i]] && b[..n] == b[..i] + [b[i]];
    }
  }

  /** After equal prefixes, the other list's next block starts no later. */
  lemma StartsAgree(a: seq<Block>, b: seq<Block>, i: nat)
    requires Canonical(a) && Canonical(b) && 1 <= i < |a| && i <= |b|
    requires forall k :: 0 <= k < i ==> a[k] == b[k]
    requires forall u: nat :: Covers(a, u) <==> Covers(b, u)
    ensures i < |b| && b[i].addr <= a[i].addr
  {
    var u := a[i].addr;
    assert a[i].Holds(u) && Covers(a, u) && Covers(b, u);
    var j :| 0 <= j < |b| && b[j].Holds(u);
    assert j < |a| && j < i ==> Below(a[j], a[i]);
    assert j > i ==> Below(b[i], b[j]);
  }

  /** Blocks starting together end together, or one list would cover a unit the other does not. */
  lemma EndsAgree(a: seq<Block>, b: seq<Block>, i: nat)
    requires Canonical(a) && Canonical(b) && 1 <= i < |a| && i < |b| && a[i].addr == b[i].addr
    requires forall u: nat :: Covers(a, u) <==> Covers(b, u)
    ensures a[i].size >= b[i].size
  {
    UnitAboveIsFree(a, i);
    assert !Covers(b, a[i].End());
    assert !b[i].Holds(a[i].End());
  }

  /** The unit just above a block is not covered: blocks do not touch. */
  lemma UnitAboveIsFree(c: seq<Block>, i: nat)
    requires Canonical(c) && i < |c|
    ensures !Covers(c, c[i].End())
  {
    forall k | 0 <= k < |c|
      ensures !c[k].Holds(c[i].End())
    {
      if k < i {
        assert Below(c[k], c[i]);
      } else if k > i {
        assert Below(c[i], c[k]);
      }
    }
  }

  /** Giving back the units just carved off restores the very same list, wherever the search
      for their place starts: both lists are the maximal-interval form of the same free space. */
  lemma CarveThenRelease(c: seq<Block>, i: nat, units: nat, j: nat)
    requires Canonical(c) && 1 <= i < |c| && 0 < units <= c[i].size
    requires FitsAfter(Carve(c, i, units), j, Block(c[i].End() - units, units))
    ensures Release(Carve(c, i, units), j, Block(c[i].End() - units, units)) == c
  {
    var d, b := Carve(c, i, units), Block(c[i].End() - units, units);
    CarveCanonical(c, i, units);
    ReleaseCanonical(d, j, b);
    forall u: nat
      ensures Covers(Release(d, j, b), u) <==> Covers(c, u)
    {
      CarveCovers(c, i, units, u);
      ReleaseCovers(d, j, b, u);
      assert b.Holds(u) ==> c[i].Holds(u);
    }
    CanonicalIsUnique(Release(d, j, b), c);
  }
}
