/** Interrupt actions of the uC/OS-II guest: per interrupt a linked chain of blocks from one fixed pool. */
module IrqChain {
  const NIL: int := -1

  datatype Action = Action(handler: nat, flags: set<nat>, dev: nat, irq: nat, next: int)

  datatype Outcome = Ok | NoMemory | Invalid

  // ---------------------------------------------------------------- one chain

  /** The blocks `c`, in order, are what the link `h` leads to. */
  predicate Linked(node: seq<Action>, c: seq<nat>, h: int) {
    h == At(c, 0) && forall k: nat :: k < |c| ==> LinkOk(node, c, k)
  }

  /** The block at a place of the chain, or NIL past its end. */
  function At(c: seq<nat>, k: nat): int {
    if k < |c| then c[k] else NIL
  }

  predicate LinkOk(node: seq<Action>, c: seq<nat>, k: nat)
    requires k < |c|
  {
    c[k] < |node| && node[c[k]].next == At(c, k + 1)
  }

  predicate Unique(c: seq<nat>) {
    forall j, k :: 0 <= j < k < |c| ==> c[j] != c[k]
  }

  lemma LinkedElsewhere(node: seq<Action>, c: seq<nat>, h: int, b: nat, a: Action)
    requires Linked(node, c, h) && b < |node| && b !in c
    ensures Linked(node[b := a], c, h)
  {
    var node' := node[b := a];
    forall k: nat | k < |c|
      ensures LinkOk(node', c, k)
    {
      assert LinkOk(node, c, k) && c[k] in c;
    }
  }

  lemma LinkedAppend(node: seq<Action>, c: seq<nat>, h: int, b: nat)
    requires Linked(node, c, h) && Unique(c) && b < |node| && b !in c && node[b].next == NIL
    ensures c == [] ==> Linked(node, [b], b)
    ensures c != [] ==> var last := c[|c| - 1];
      last < |node| && Linked(node[last := node[last].(next := b)], c + [b], h)
  {
    if c != [] {
      assert LinkOk(node, c, |c| - 1);
      var last := c[|c| - 1];
      var node', c' := node[last := node[last].(next := b)], c + [b];
      forall k: nat | k < |c'|
        ensures LinkOk(node', c', k)
      {
        if k < |c| {
          assert LinkOk(node, c, k);
          assert k < |c| - 1 ==> c[k] != last;
        }
      }
    }
  }

  /** The chain without its block `k`. */
  function Without<T>(c: seq<T>, k: nat): seq<T>
    requires k < |c|
  {
    c[..k] + c[k + 1..]
  }

  lemma WithoutAt(c: seq<nat>, k: nat, i: nat)
    requires k < |c| && i < |c| - 1
    ensures |Without(c, k)| == |c| - 1 && Without(c, k)[i] == if i < k then c[i] else c[i + 1]
  {
  }

  lemma LinkedUnlinkHead(node: seq<Action>, c: seq<nat>, h: int)
    requires Linked(node, c, h) && c != []
    ensures c[0] < |node| && Linked(node, Without(c, 0), node[c[0]].next)
  {
    assert Without(c, 0) == c[1..];
    assert LinkOk(node, c, 0);
    forall k: nat | k < |c| - 1
      ensures LinkOk(node, c[1..], k)
    {
      assert LinkOk(node, c, k + 1);
    }
  }

  lemma LinkedUnlink(node: seq<Action>, c: seq<nat>, h: int, k: nat)
    requires Linked(node, c, h) && Unique(c) && 0 < k < |c|
    ensures c[k - 1] < |node| && c[k] < |node|
    ensures Linked(node[c[k - 1] := node[c[k - 1]].(next := node[c[k]].next)], Without(c, k), h)
  {
    assert LinkOk(node, c, k - 1) && LinkOk(node, c, k);
    var c' := Without(c, k);
    var node' := node[c[k - 1] := node[c[k - 1]].(next := node[c[k]].next)];
    forall i: nat | i < |c'|
      ensures LinkOk(node', c', i)
    {
      WithoutAt(c, k, i);
      if i + 1 < |c'| {
        WithoutAt(c, k, i + 1);
      }
      assert LinkOk(node, c, if i < k then i else i + 1);
      assert i != k - 1 ==> c'[i] != c[k - 1];
    }
    WithoutAt(c, k, 0);
  }

  // ---------------------------------------------------------------- the pool

  predicate FreeOk(owner: seq<int>, free: seq<nat>) {
    Unique(free) && forall b :: b in free ==> b < |owner| && owner[b] == NIL
  }

  predicate ChainOk(owner: seq<int>, c: seq<nat>, i: int) {
    Unique(c) && forall b :: b in c ==> b < |owner| && owner[b] == i
  }

  predicate Placed(owner: seq<int>, free: seq<nat>, chains: seq<seq<nat>>, b: nat)
    requires b < |owner|
  {
    if owner[b] == NIL then b in free else 0 <= owner[b] < |chains| && b in chains[owner[b]]
  }

  /** Every block is free or in exactly one chain, once: `owner` says in which, NIL meaning free. */
  ghost predicate Pool(owner: seq<int>, free: seq<nat>, chains: seq<seq<nat>>) {
    && FreeOk(owner, free)
    && (forall i :: 0 <= i < |chains| ==> ChainOk(owner, chains[i], i))
    && (forall b: nat :: b < |owner| ==> Placed(owner, free, chains, b))
  }

  lemma PoolTake(owner: seq<int>, free: seq<nat>, chains: seq<seq<nat>>, i: nat, b: nat)
    requires Pool(owner, free, chains) && free != [] && b == free[0] && i < |chains|
    ensures b < |owner| && Pool(owner[b := i], free[1..], chains[i := chains[i] + [b]])
    ensures forall j :: 0 <= j < |chains| ==> b !in chains[j]
  {
    assert b in free && free == [b] + free[1..];
    var owner', chains' := owner[b := i], chains[i := chains[i] + [b]];
    forall d | d in free[1..]
      ensures d < |owner'| && owner'[d] == NIL
    {
      var x :| 0 <= x < |free| - 1 && free[1..][x] == d;
      assert free[x + 1] == d && d in free && free[0] != free[x + 1];
    }
    forall j | 0 <= j < |chains|
      ensures b !in chains[j] && ChainOk(owner', chains'[j], j)
    {
      assert ChainOk(owner, chains[j], j);
    }
    forall d: nat | d < |owner|
      ensures Placed(owner', free[1..], chains', d)
    {
      assert Placed(owner, free, chains, d);
      assert d in free <==> d == b || d in free[1..];
    }
  }

  lemma PoolGive(owner: seq<int>, free: seq<nat>, chains: seq<seq<nat>>, i: nat, k: nat, b: nat)
    requires Pool(owner, free, chains) && i < |chains| && k < |chains[i]| && b == chains[i][k]
    ensures b < |owner| && Pool(owner[b := NIL], [b] + free, chains[i := Without(chains[i], k)])
    ensures forall j :: 0 <= j < |chains| && j != i ==> b !in chains[j]
  {
    assert ChainOk(owner, chains[i], i) && b in chains[i];
    var c' := Without(chains[i], k);
    var owner', chains' := owner[b := NIL], chains[i := c'];
    WithoutUnique(chains[i], k);
    forall j | 0 <= j < |chains|
      ensures (j != i ==> b !in chains[j]) && ChainOk(owner', chains'[j], j)
    {
      assert ChainOk(owner, chains[j], j);
    }
    forall d: nat | d < |owner|
      ensures Placed(owner', [b] + free, chains', d)
    {
      assert Placed(owner, free, chains, d);
    }
  }

  lemma WithoutUnique(c: seq<nat>, k: nat)
    requires Unique(c) && k < |c|
    ensures Unique(Without(c, k))
    ensures forall d :: d in Without(c, k) <==> d in c && d != c[k]
  {
    forall d: nat
      ensures d in Without(c, k) <==> d in c && d != c[k]
    {
      WithoutHas(c, k, d);
    }
    forall x, y | 0 <= x < y < |Without(c, k)|
      ensures Without(c, k)[x] != Without(c, k)[y]
    {
      WithoutAt(c, k, x);
      WithoutAt(c, k, y);
    }
  }

  lemma WithoutHas(c: seq<nat>, k: nat, d: nat)
    requires Unique(c) && k < |c|
    ensures d in Without(c, k) <==> d in c && d != c[k]
  {
    var c' := Without(c, k);
    if d in c && d != c[k] {
      var i :| 0 <= i < |c| && c[i] == d;
      assert c'[if i < k then i else i - 1] == d;
    }
    if d in c' {
      var i :| 0 <= i < |c'| && c'[i] == d;
      assert c[if i < k then i else i + 1] == d;
    }
  }

  // ---------------------------------------------------------------- what a chain says

  datatype Info = Info(handler: nat, flags: set<nat>, dev: nat)

  /** The registrations along a chain, in order. */
  function Infos(node: seq<Action>, c: seq<nat>): (s: seq<Info>)
    requires InPool(node, c)
    ensures |s| == |c|
  {
    seq(|c|, k requires 0 <= k < |c| => Info(node[c[k]].handler, node[c[k]].flags, node[c[k]].dev))
  }

  /** The first registration of a device, or the number of registrations. */
  function FirstDev(s: seq<Info>, dev: nat): (k: nat)
    ensures k <= |s| && (k < |s| ==> s[k].dev == dev)
    ensures forall i :: 0 <= i < k ==> s[i].dev != dev
  {
    if s == [] then 0 else if s[0].dev == dev then 0 else FirstDev(s[1..], dev) + 1
  }

  lemma {:induction false} FirstDevAppend(s: seq<Info>, x: Info)
    ensures FirstDev(s + [x], x.dev) == FirstDev(s, x.dev)
  {
    if s == [] {
      assert s + [x] == [x];
    } else {
      assert (s + [x])[1..] == s[1..] + [x];
      FirstDevAppend(s[1..], x);
    }
  }

  /**
   * Freeing a device just registered leaves the same registrations, in content and order, exactly when every one from
   * the device's first on was already equal to the new one: in particular when the device had none.
   */
  lemma RequestThenFree(s: seq<Info>, x: Info)
    ensures var k := FirstDev(s + [x], x.dev);
      k <= |s| && (Without(s + [x], k) == s <==> forall i :: k <= i < |s| ==> s[i] == x)
  {
    FirstDevAppend(s, x);
    var k := FirstDev(s, x.dev);
    WithoutAppend(s, x, k);
    if k < |s| {
      ShiftedExactly(s, x, k);
    }
  }

  lemma ShiftedExactly<T>(s: seq<T>, x: T, k: nat)
    requires k < |s|
    ensures Without(s, k) + [x] == s <==> forall i :: k <= i < |s| ==> s[i] == x
  {
    if Without(s, k) + [x] == s {
      ShiftedIsConstant(s, x, k);
    }
  }

  /** A sequence that stays the same when its element `k` goes and `x` comes last consists of `x` from `k` on. */
  lemma {:induction false} ShiftedIsConstant<T>(s: seq<T>, x: T, k: nat)
    requires k < |s| && Without(s, k) + [x] == s
    ensures forall i :: k <= i < |s| ==> s[i] == x
  {
    var i := |s|;
    while i > k
      invariant k <= i <= |s| && forall j :: i <= j < |s| ==> s[j] == x
    {
      assert (Without(s, k) + [x])[i - 1] == if i == |s| then x else s[i];
      i := i - 1;
    }
  }

  /** The pool's first block linked last, and block `k` of the chain given back: all is
      as it was if that is the block. */
  lemma UndoneExactly(chains: seq<seq<nat>>, irq: nat, free: seq<nat>, k: nat)
    requires irq < |chains| && free != [] && free[0] !in chains[irq] && k <= |chains[irq]|
    ensures var c := chains[irq] + [free[0]];
      chains[irq := c][irq := Without(c, k)] == chains && [c[k]] + free[1..] == free <==> k == |chains[irq]|
  {
    var c, b := chains[irq], free[0];
    WithoutAppend(c, b, k);
    if k == |c| {
      assert chains[irq := c + [b]][irq := c] == chains;
    } else {
      assert (Without(c, k) + [b])[|c| - 1] == b;
      assert b in Without(c + [b], k);
      assert chains[irq := c + [b]][irq := Without(c + [b], k)][irq] == Without(c + [b], k);
    }
  }

  lemma WithoutAppend<T>(s: seq<T>, x: T, k: nat)
    requires k <= |s|
    ensures Without(s + [x], k) == if k == |s| then s else Without(s, k) + [x]
  {
    assert (s + [x])[..k] == s[..k];
    assert (s + [x])[k + 1..] == if k == |s| then [] else s[k + 1..] + [x];
  }

  function Flags(s: seq<Info>): set<nat> {
    if s == [] then {} else Flags(s[..|s| - 1]) + s[|s| - 1].flags
  }

  ghost predicate FlagOf(s: seq<Info>, f: nat) {
    exists k :: 0 <= k < |s| && f in s[k].flags
  }

  /** The flags of all registrations, and no others. */
  lemma {:induction false} FlagsJoin(s: seq<Info>, f: nat)
    ensures f in Flags(s) <==> FlagOf(s, f)
  {
    if s != [] {
      var n := |s| - 1;
      FlagsJoin(s[..n], f);
      if f in s[n].flags {
        assert FlagOf(s, f);
      } else if k :| 0 <= k < |s| && f in s[k].flags {
        assert s[..n][k] == s[k];
      }
    }
  }

  function Handlers(s: seq<Info>): seq<nat> {
    seq(|s|, k requires 0 <= k < |s| => s[k].handler)
  }

  /** The blocks after the last of a chain was linked to `b`. */
  function Appended(node: seq<Action>, c: seq<nat>, b: nat): seq<Action> {
    if c == [] || c[|c| - 1] >= |node| then node else node[c[|c| - 1] := node[c[|c| - 1]].(next := b)]
  }

  ghost predicate AllLinked(head: seq<int>, node: seq<Action>, chains: seq<seq<nat>>) {
    |head| == |chains| && forall i: nat :: i < |chains| ==> Linked(node, chains[i], head[i])
  }

  /** A free block is in no chain: writing to it changes none. */
  lemma BlockTaken(head: seq<int>, node: seq<Action>, owner: seq<int>, free: seq<nat>, chains: seq<seq<nat>>,
                   b: nat, a: Action)
    requires Pool(owner, free, chains) && AllLinked(head, node, chains) && |node| == |owner| && b in free
    ensures b < |node| && AllLinked(head, node[b := a], chains)
    ensures forall i :: 0 <= i < |chains| ==> b !in chains[i]
    ensures forall i: nat :: i < |chains| ==>
      InPool(node, chains[i]) && Infos(node[b := a], chains[i]) == Infos(node, chains[i])
  {
    forall i: nat | i < |chains|
      ensures b !in chains[i] && Linked(node[b := a], chains[i], head[i])
      ensures InPool(node, chains[i]) && Infos(node[b := a], chains[i]) == Infos(node, chains[i])
    {
      assert ChainOk(owner, chains[i], i);
      LinkedElsewhere(node, chains[i], head[i], b, a);
      InRange(node, chains[i], head[i]);
    }
  }

  predicate InPool(node: seq<Action>, c: seq<nat>) {
    forall k :: 0 <= k < |c| ==> c[k] < |node|
  }

  lemma AppendEffect(head: seq<int>, node: seq<Action>, owner: seq<int>, free: seq<nat>, chains: seq<seq<nat>>,
                     irq: nat, b: nat, a: Action)
    requires Pool(owner, free, chains) && AllLinked(head, node, chains) && |node| == |owner| && irq < |chains|
    requires free != [] && b == free[0] && b < |node| && a.next == NIL
    ensures var c := chains[irq];
      var chains', node' := chains[irq := c + [b]], Appended(node[b := a], c, b);
      var head' := if c == [] then head[irq := b] else head;
      && |node'| == |node| && Pool(owner[b := irq], free[1..], chains') && AllLinked(head', node', chains')
      && InPool(node', c + [b]) && InPool(node, c)
      && Infos(node', c + [b]) == Infos(node, c) + [Info(a.handler, a.flags, a.dev)]
      && forall i: nat :: i < |chains| && i != irq ==>
           InPool(node', chains[i]) && InPool(node, chains[i]) && Infos(node', chains[i]) == Infos(node, chains[i])
  {
    var c, node1 := chains[irq], node[b := a];
    var chains', node' := chains[irq := c + [b]], Appended(node[b := a], c, b);
    var head' := if c == [] then head[irq := b] else head;
    BlockTaken(head, node, owner, free, chains, b, a);
    PoolTake(owner, free, chains, irq, b);
    assert ChainOk(owner, chains[irq], irq) && Linked(node1, c, head[irq]);
    LinkedAppend(node1, c, head[irq], b);
    InRange(node1, c, head[irq]);
    AppendedOthers(head, node1, owner, free, chains, irq, b);
  }

  lemma AppendedOthers(head: seq<int>, node: seq<Action>, owner: seq<int>, free: seq<nat>, chains: seq<seq<nat>>,
                       irq: nat, b: nat)
    requires Pool(owner, free, chains) && AllLinked(head, node, chains) && irq < |chains|
    ensures forall i: nat :: i < |chains| && i != irq ==>
      var node' := Appended(node, chains[irq], b);
      && Linked(node', chains[i], head[i]) && InPool(node, chains[i])
      && Infos(node', chains[i]) == Infos(node, chains[i])
  {
    forall i: nat | i < |chains| && i != irq
      ensures InPool(node, chains[i]) && Linked(Appended(node, chains[irq], b), chains[i], head[i])
      ensures Infos(Appended(node, chains[irq], b), chains[i]) == Infos(node, chains[i])
    {
      assert ChainOk(owner, chains[i], i) && ChainOk(owner, chains[irq], irq) && Linked(node, chains[i], head[i]);
      AppendedElsewhere(node, chains[irq], b, chains[i], head[i]);
    }
  }

  lemma AppendedElsewhere(node: seq<Action>, c: seq<nat>, b: nat, d: seq<nat>, h: int)
    requires Linked(node, d, h) && forall x :: x in c ==> x !in d
    ensures Linked(Appended(node, c, b), d, h) && InPool(node, d)
    ensures Infos(Appended(node, c, b), d) == Infos(node, d)
  {
    InRange(node, d, h);
    if c != [] && c[|c| - 1] < |node| {
      var last := c[|c| - 1];
      LinkedElsewhere(node, d, h, last, node[last].(next := b));
    }
  }

  lemma UnlinkEffect(head: seq<int>, node: seq<Action>, owner: seq<int>, free: seq<nat>, chains: seq<seq<nat>>,
                     irq: nat, k: nat, b: nat)
    requires Pool(owner, free, chains) && AllLinked(head, node, chains) && |node| == |owner| && irq < |chains|
    requires k < |chains[irq]| && b == chains[irq][k] && InPool(node, chains[irq])
    ensures var c := chains[irq];
      var chains' := chains[irq := Without(c, k)];
      var node' := if k == 0 then node else node[c[k - 1] := node[c[k - 1]].(next := node[b].next)];
      var head' := if k == 0 then head[irq := node[b].next] else head;
      && Pool(owner[b := NIL], [b] + free, chains') && AllLinked(head', node', chains')
      && InPool(node', Without(c, k)) && Infos(node', Without(c, k)) == Without(Infos(node, c), k)
      && forall i: nat :: i < |chains| && i != irq ==>
           InPool(node', chains[i]) && InPool(node, chains[i]) && Infos(node', chains[i]) == Infos(node, chains[i])
  {
    var c := chains[irq];
    var chains' := chains[irq := Without(c, k)];
    var node' := if k == 0 then node else node[c[k - 1] := node[c[k - 1]].(next := node[b].next)];
    var head' := if k == 0 then head[irq := node[b].next] else head;
    PoolGive(owner, free, chains, irq, k, b);
    assert ChainOk(owner, chains[irq], irq) && Linked(node, c, head[irq]);
    if k == 0 {
      LinkedUnlinkHead(node, c, head[irq]);
    } else {
      LinkedUnlink(node, c, head[irq], k);
    }
    InRange(node', Without(c, k), head'[irq]);
    InfosWithout(node, node', c, k);
    forall i: nat | i < |chains| && i != irq
      ensures Linked(node', chains'[i], head'[i])
      ensures InPool(node', chains[i]) && InPool(node, chains[i]) && Infos(node', chains[i]) == Infos(node, chains[i])
    {
      assert ChainOk(owner, chains[i], i) && Linked(node, chains[i], head[i]);
      InRange(node, chains[i], head[i]);
      if k > 0 {
        assert c[k - 1] in c;
        LinkedElsewhere(node, chains[i], head[i], c[k - 1], node[c[k - 1]].(next := node[b].next));
      }
    }
  }

  lemma InfosWithout(node: seq<Action>, node': seq<Action>, c: seq<nat>, k: nat)
    requires InPool(node, c) && k < |c| && |node'| == |node| && InPool(node', Without(c, k))
    requires forall b: nat :: b < |node| ==>
      node'[b].handler == node[b].handler && node'[b].flags == node[b].flags && node'[b].dev == node[b].dev
    ensures Infos(node', Without(c, k)) == Without(Infos(node, c), k)
  {
    forall i: nat | i < |c| - 1
      ensures Infos(node', Without(c, k))[i] == Without(Infos(node, c), k)[i]
    {
      WithoutAt(c, k, i);
    }
  }

  class Table {
    /** The first action of each interrupt, and the blocks. */
    var head: seq<int>
    var node: seq<Action>
    var free: seq<nat>
    ghost var owner: seq<int>
    ghost var chains: seq<seq<nat>>

    /** Comparing with `true` keeps the two predicates in one piece for the verifier. */
    ghost predicate Valid()
      reads this
    {
      |node| == |owner| && Pool(owner, free, chains) == true && AllLinked(head, node, chains) == true
    }

    /** The registrations of an interrupt. */
    ghost function Actions(i: nat): seq<Info>
      reads this
      requires Valid() && i < |head|
    {
      InRange(node, chains[i], head[i]);
      Infos(node, chains[i])
    }

    constructor (irqs: nat, blocks: nat)
      ensures Valid() && |head| == irqs && |node| == |free| == blocks
      ensures forall i: nat :: i < irqs ==> chains[i] == []
    {
      head := seq(irqs, i => NIL);
      node := seq(blocks, b => Action(0, {}, 0, 0, NIL));
      free := seq(blocks, b requires 0 <= b < blocks => b);
      owner := seq(blocks, b => NIL);
      chains := seq(irqs, i => []);
      new;
      forall b: nat | b < blocks
        ensures Placed(owner, free, chains, b)
      {
        assert free[b] == b;
      }
    }

    /** The last block of a chain, or NIL. */
    method Last(irq: nat, ghost c: seq<nat>) returns (last: int)
      requires irq < |head| && Linked(node, c, head[irq])
      ensures last == if c == [] then NIL else c[|c| - 1]
    {
      ghost var k: nat := 0;
      last := NIL;
      var cur := head[irq];
      while cur != NIL
        invariant k <= |c| && cur == At(c, k) && last == if k == 0 then NIL else c[k - 1]
        decreases |c| - k
      {
        assert LinkOk(node, c, k);
        last := cur;
        cur := node[cur].next;
        k := k + 1;
      }
    }

    /** Puts a block at the end of an interrupt's chain, if there is such an interrupt. */
    method SetupIrq(irq: nat, b: nat, ghost c: seq<nat>) returns (ok: bool)
      requires b < |node| && node[b].next == NIL && (irq < |head| ==> Linked(node, c, head[irq]) && b !in c)
      modifies this`head, this`node
      ensures ok == (irq < |old(head)|)
      ensures !ok ==> head == old(head) && node == old(node)
      ensures ok ==> node == Appended(old(node)[b := old(node)[b].(irq := irq)], c, b)
      ensures ok ==> head == if c == [] then old(head)[irq := b] else old(head)
    {
      if irq >= |head| {
        return false;
      }
      var last := Last(irq, c);
      InRange(node, c, head[irq]);
      node := node[b := node[b].(irq := irq)];
      if last == NIL {
        head := head[irq := b];
      } else {
        node := node[last := node[last].(next := b)];
      }
      ok := true;
    }

    /** Sets an allocated block up as an action; a block that is not used goes back to the pool. */
    method SetupOrReturn(irq: nat, b: nat, a: Action, ghost c: seq<nat>) returns (ok: bool)
      requires b < |node| && a.next == NIL && (irq < |head| ==> Linked(node[b := a], c, head[irq]) && b !in c)
      modifies this`head, this`node, this`free
      ensures ok == (irq < |old(head)|)
      ensures !ok ==> head == old(head) && node == old(node)[b := a] && free == [b] + old(free)
      ensures ok ==> node == Appended(old(node)[b := a.(irq := irq)], c, b) && free == old(free)
      ensures ok ==> head == if c == [] then old(head)[irq := b] else old(head)
    {
      node := node[b := a];
      ok := SetupIrq(irq, b, c);
      if !ok {
        free := [b] + free;
      }
    }

    /** Registers an action: it goes last, or its block goes back to the pool. */
    method RequestIrq(irq: nat, handler: nat, flags: set<nat>, dev: nat) returns (result: Outcome)
      requires Valid()
      modifies this
      ensures Valid() && |chains| == |old(chains)|
      ensures result == if old(free) == [] then NoMemory else if irq >= |chains| then Invalid else Ok
      ensures result != Ok ==> chains == old(chains) && free == old(free)
      ensures result != Ok ==> forall i: nat :: i < |chains| ==> Actions(i) == old(Actions(i))
      ensures result == Ok ==>
        chains == old(chains)[irq := old(chains)[irq] + [old(free)[0]]] && old(free)[0] !in old(chains)[irq]
      ensures result == Ok ==> free == old(free)[1..] && Actions(irq) == old(Actions(irq)) + [Info(handler, flags, dev)]
      ensures result == Ok ==> forall i: nat :: i < |chains| && i != irq ==> Actions(i) == old(Actions(i))
    {
      if free == [] {
        return NoMemory;
      }
      var b := free[0];
      assert FreeOk(owner, free) && b in free;
      var a := Action(handler, flags, dev, node[b].irq, NIL);
      ghost var c := if irq < |chains| then chains[irq] else [];
      BlockTaken(head, node, owner, free, chains, b, a);
      if irq < |head| {
        AppendEffect(head, node, owner, free, chains, irq, b, a.(irq := irq));
      }
      free := free[1..];
      var ok := SetupOrReturn(irq, b, a, c);
      if !ok {
        assert free == old(free);
        return Invalid;
      }
      owner := owner[b := irq];
      chains := chains[irq := c + [b]];
      result := Ok;
    }

    /** Finds the first action of a device: the block, and the one before it or NIL. */
    method Find(irq: nat, dev: nat, ghost c: seq<nat>, ghost s: seq<Info>) returns (before: int, found: int)
      requires irq < |head| && Linked(node, c, head[irq]) && InPool(node, c) && s == Infos(node, c)
      ensures var k := FirstDev(s, dev);
        found == At(c, k) && before == if k == 0 then NIL else c[k - 1]
    {
      ghost var k: nat := 0;
      before, found := NIL, head[irq];
      while found != NIL
        invariant k <= FirstDev(s, dev) && found == At(c, k) && before == if k == 0 then NIL else c[k - 1]
        decreases |c| - k
      {
        assert LinkOk(node, c, k) && s[k].dev == node[found].dev;
        if node[found].dev == dev {
          return;
        }
        before, found := found, node[found].next;
        k := k + 1;
      }
    }

    /** Unlinks block `k` of the chain and gives it back to the pool. */
    method TakeOut(irq: nat, before: int, found: nat, ghost k: nat)
      requires Valid() && irq < |head| && k < |chains[irq]| && found == chains[irq][k]
      requires before == if k == 0 then NIL else chains[irq][k - 1]
      modifies this
      ensures Valid() && chains == old(chains)[irq := Without(old(chains)[irq], k)]
      ensures Actions(irq) == Without(old(Actions(irq)), k) && free == [found] + old(free)
      ensures forall i: nat :: i < |chains| && i != irq ==> Actions(i) == old(Actions(i))
    {
      ghost var c := chains[irq];
      assert Linked(node, c, head[irq]);
      InRange(node, c, head[irq]);
      UnlinkEffect(head, node, owner, free, chains, irq, k, found);
      if before == NIL {
        head := head[irq := node[found].next];
      } else {
        node := node[before := node[before].(next := node[found].next)];
      }
      free := [found] + free;
      owner := owner[found := NIL];
      chains := chains[irq := Without(c, k)];
    }

    /** Removes the first registration of a device, and gives its block back; nothing happens if there is none. */
    method FreeIrq(irq: nat, dev: nat)
      requires Valid()
      modifies this
      ensures Valid() && |chains| == |old(chains)|
      ensures irq < |chains| ==> var s := old(Actions(irq)); var k := FirstDev(s, dev);
        if k == |s| then chains == old(chains) && Actions(irq) == s && free == old(free)
        else
          && chains == old(chains)[irq := Without(old(chains)[irq], k)] && Actions(irq) == Without(s, k)
          && free == [old(chains)[irq][k]] + old(free)
      ensures irq >= |chains| ==> free == old(free) && chains == old(chains)
      ensures forall i: nat :: i < |chains| && i != irq ==> Actions(i) == old(Actions(i))
    {
      if irq >= |head| {
        return;
      }
      ghost var c, s := chains[irq], Actions(irq);
      assert Linked(node, c, head[irq]);
      InRange(node, c, head[irq]);
      var before, found := Find(irq, dev, c, s);
      if found == NIL {
        return;
      }
      TakeOut(irq, before, found, FirstDev(s, dev));
    }

    /**
     * Registers an action and frees its device: every block is back where it was, chain and pool, exactly when the
     * device had no registration there before.
     */
    method RequestAndFree(irq: nat, handler: nat, flags: set<nat>, dev: nat) returns (result: Outcome)
      requires Valid() && irq < |head|
      modifies this
      ensures Valid() && |chains| == |old(chains)| && (result == Ok <==> old(free) != [])
      ensures result == Ok ==>
        (chains == old(chains) && free == old(free) <==> FirstDev(old(Actions(irq)), dev) == |old(Actions(irq))|)
    {
      ghost var s, was, pool := Actions(irq), chains, free;
      result := RequestIrq(irq, handler, flags, dev);
      if result != Ok {
        return;
      }
      FirstDevAppend(s, Info(handler, flags, dev));
      FreeIrq(irq, dev);
      UndoneExactly(was, irq, pool, FirstDev(s, dev));
    }

    /** Calls the handlers of an interrupt in registration order, and joins their flags. */
    method HandleEvent(irq: nat) returns (called: seq<nat>, status: set<nat>)
      requires Valid() && irq < |head| && head[irq] != NIL
      ensures called == Handlers(Actions(irq)) && status == Flags(Actions(irq))
      ensures |called| == |Actions(irq)| && forall k :: 0 <= k < |called| ==> called[k] == Actions(irq)[k].handler
      ensures forall f :: f in status <==> FlagOf(Actions(irq), f)
    {
      ghost var c, s := chains[irq], Actions(irq);
      ghost var k: nat := 0;
      called, status := [], {};
      var action := head[irq];
      assert Linked(node, c, head[irq]);
      assert Handlers(s[..0]) == [] && s[..0] == [];
      while action != NIL
        invariant k <= |c| && action == At(c, k)
        invariant called == Handlers(s[..k]) && status == Flags(s[..k])
        decreases |c| - k
      {
        assert LinkOk(node, c, k);
        assert s[..k + 1][..k] == s[..k];
        status := status + node[action].flags;
        called := called + [node[action].handler];
        action := node[action].next;
        k := k + 1;
      }
      assert s[..k] == s;
      forall f
        ensures f in status <==> FlagOf(s, f)
      {
        FlagsJoin(s, f);
      }
    }
  }

  lemma InRange(node: seq<Action>, c: seq<nat>, h: int)
    requires Linked(node, c, h)
    ensures InPool(node, c)
  {
    forall k: nat | k < |c|
      ensures c[k] < |node|
    {
      assert LinkOk(node, c, k);
    }
  }
}
