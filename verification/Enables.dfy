/** Virtual enable bits of all guests as one set each, and the host interrupts that follow their changes. */
module Enables {
  import opened Lanes
  import opened Word

  const WORDS: nat := 5

  /** Bits changed between two words: the exclusive or. */
  function Changed(w: set<nat>, u: set<nat>): set<nat> {
    (w - u) + (u - w)
  }

  // ---------------------------------------------------------------- the host's enables

  /** One changed bit: the mapped host interrupt is configured and enabled, or disabled; an unmapped one is ignored. */
  function Follow(host: set<nat>, pirqOf: map<nat, nat>, lines: nat, virq: nat, on: bool): set<nat> {
    if virq !in pirqOf then host
    else if !on then host - {pirqOf[virq]}
    else if pirqOf[virq] < lines then host + {pirqOf[virq]}
    else host
  }

  /** The changed bits of word `k`, in the order they are treated. */
  function FollowAll(host: set<nat>, pirqOf: map<nat, nat>, lines: nat, k: nat, istatus: set<nat>,
                     treated: seq<nat>): set<nat>
  {
    if treated == [] then host
    else
      var b := treated[|treated| - 1];
      Follow(FollowAll(host, pirqOf, lines, k, istatus, treated[..|treated| - 1]), pirqOf, lines,
             32 * k + b, b in istatus)
  }

  lemma FollowMore(host: set<nat>, pirqOf: map<nat, nat>, lines: nat, k: nat, istatus: set<nat>,
                   treated: seq<nat>, b: nat)
    ensures FollowAll(host, pirqOf, lines, k, istatus, treated + [b]) ==
      Follow(FollowAll(host, pirqOf, lines, k, istatus, treated), pirqOf, lines, 32 * k + b, b in istatus)
  {
    assert (treated + [b])[..|treated|] == treated;
  }

  /** The host interrupts that become marked as enabled for the guest. */
  function Marked(pirqOf: map<nat, nat>, k: nat, istatus: set<nat>, treated: seq<nat>): set<nat> {
    set b | b in treated && b in istatus && 32 * k + b in pirqOf :: pirqOf[32 * k + b]
  }

  function MarkedBit(pirqOf: map<nat, nat>, k: nat, istatus: set<nat>, b: nat): set<nat> {
    if b in istatus && 32 * k + b in pirqOf then {pirqOf[32 * k + b]} else {}
  }

  lemma MarkedMore(pirqOf: map<nat, nat>, k: nat, istatus: set<nat>, treated: seq<nat>, b: nat)
    ensures Marked(pirqOf, k, istatus, treated + [b]) ==
      Marked(pirqOf, k, istatus, treated) + MarkedBit(pirqOf, k, istatus, b)
  {
    var m := Marked(pirqOf, k, istatus, treated + [b]);
    forall c | c in treated && c in istatus && 32 * k + c in pirqOf
      ensures pirqOf[32 * k + c] in m
    {
      assert c in treated + [b];
    }
    if b in istatus && 32 * k + b in pirqOf {
      assert b in treated + [b];
    }
  }

  /** The guests' maps of virtual to host interrupts; `virq` of guest `g` alone has its host interrupt. */
  ghost predicate Sole(pirqOf: seq<map<nat, nat>>, g: nat, virq: nat)
    requires g < |pirqOf|
  {
    virq in pirqOf[g] && forall h: nat, v: nat :: h < |pirqOf| && Shares(pirqOf, g, virq, h, v) ==> h == g && v == virq
  }

  predicate Shares(pirqOf: seq<map<nat, nat>>, g: nat, virq: nat, h: nat, v: nat)
    requires g < |pirqOf| && h < |pirqOf|
  {
    virq in pirqOf[g] && v in pirqOf[h] && pirqOf[h][v] == pirqOf[g][virq]
  }

  predicate Misses(pirqOf: map<nat, nat>, k: nat, b: nat, p: nat) {
    32 * k + b in pirqOf ==> pirqOf[32 * k + b] != p
  }

  /** Treating changed bits leaves the host interrupt of every other virtual interrupt alone. */
  lemma {:induction false} FollowOther(host: set<nat>, pirqOf: map<nat, nat>, lines: nat, k: nat, istatus: set<nat>,
                                       treated: seq<nat>, p: nat)
    requires forall b :: b in treated ==> Misses(pirqOf, k, b, p)
    ensures p in FollowAll(host, pirqOf, lines, k, istatus, treated) <==> p in host
  {
    if treated != [] {
      assert Misses(pirqOf, k, treated[|treated| - 1], p);
      FollowOther(host, pirqOf, lines, k, istatus, treated[..|treated| - 1], p);
    }
  }

  /** A changed bit whose host interrupt no other bit of the guest shares leaves that interrupt as the bit now is: one
      that is switched on is enabled if the host has its line. */
  lemma {:induction false} FollowBit(host: set<nat>, pirqOf: map<nat, nat>, lines: nat, k: nat, istatus: set<nat>,
                                     treated: seq<nat>, bit: nat)
    requires bit in treated && 32 * k + bit in pirqOf
    requires forall v :: v in pirqOf && pirqOf[v] == pirqOf[32 * k + bit] ==> v == 32 * k + bit
    ensures var p := pirqOf[32 * k + bit];
      p in FollowAll(host, pirqOf, lines, k, istatus, treated) <==> bit in istatus && (p < lines || p in host)
  {
    var n := |treated| - 1;
    if bit in treated[..n] {
      FollowBit(host, pirqOf, lines, k, istatus, treated[..n], bit);
    } else {
      assert treated[n] == bit;
      forall b | b in treated[..n]
        ensures Misses(pirqOf, k, b, pirqOf[32 * k + bit])
      {
      }
      FollowOther(host, pirqOf, lines, k, istatus, treated[..n], pirqOf[32 * k + bit]);
    }
  }

  // ---------------------------------------------------------------- all guests

  /** Guest `g`'s virtual enable bits: one set over all its words. */
  ghost function VirtualEnables(reg: seq<seq<word>>, g: nat): set<nat>
    requires g < |reg| && |reg[g]| == WORDS
  {
    set virq | 0 <= virq < 32 * WORDS && virq % 32 in BitsOf(reg[g][virq / 32])
  }

  /** The host interrupt of `virq` is enabled exactly when the guest has enabled `virq`. */
  ghost predicate InStep(reg: seq<seq<word>>, pirqOf: seq<map<nat, nat>>, host: set<nat>, g: nat, virq: nat)
    requires g < |reg| == |pirqOf| && |reg[g]| == WORDS
  {
    virq < 32 * WORDS && virq in pirqOf[g] ==> (pirqOf[g][virq] in host <==> virq in VirtualEnables(reg, g))
  }

  predicate Layout(reg: seq<seq<word>>, pirqOf: seq<map<nat, nat>>) {
    && |reg| == |pirqOf|
    && (forall g :: 0 <= g < |reg| ==> |reg[g]| == WORDS)
  }

  /** The host follows every guest in every interrupt that is not shared and exists. */
  ghost predicate Synced(reg: seq<seq<word>>, pirqOf: seq<map<nat, nat>>, lines: nat, host: set<nat>)
    requires Layout(reg, pirqOf)
  {
    forall g: nat, virq: nat ::
      g < |reg| && Sole(pirqOf, g, virq) && pirqOf[g][virq] < lines ==> InStep(reg, pirqOf, host, g, virq)
  }

  lemma Split(k: nat, b: nat)
    requires b < 32
    ensures (32 * k + b) / 32 == k && (32 * k + b) % 32 == b
  {
  }

  /** A change of one word, followed bit by bit, keeps the host in step. */
  lemma SyncedStep(reg: seq<seq<word>>, pirqOf: seq<map<nat, nat>>, lines: nat, host: set<nat>,
                   g: nat, k: nat, istatus: word, treated: seq<nat>)
    requires Layout(reg, pirqOf) && Synced(reg, pirqOf, lines, host)
    requires g < |reg| && k < WORDS
    requires forall b :: b in treated <==> b in Changed(BitsOf(reg[g][k]), BitsOf(istatus))
    ensures var reg' := reg[g := reg[g][k := istatus]];
      Layout(reg', pirqOf) && Synced(reg', pirqOf, lines,
        FollowAll(host, pirqOf[g], lines, k, BitsOf(istatus), treated))
  {
    var reg' := reg[g := reg[g][k := istatus]];
    var host' := FollowAll(host, pirqOf[g], lines, k, BitsOf(istatus), treated);
    forall h: nat, virq: nat | h < |reg| && Sole(pirqOf, h, virq) && pirqOf[h][virq] < lines
      ensures InStep(reg', pirqOf, host', h, virq)
    {
      assert InStep(reg, pirqOf, host, h, virq);
      if virq < 32 * WORDS {
        InStepAfter(reg, pirqOf, lines, host, g, k, istatus, treated, h, virq);
      }
    }
  }

  lemma InStepAfter(reg: seq<seq<word>>, pirqOf: seq<map<nat, nat>>, lines: nat, host: set<nat>,
                    g: nat, k: nat, istatus: word, treated: seq<nat>, h: nat, virq: nat)
    requires Layout(reg, pirqOf) && h < |reg| && virq < 32 * WORDS
    requires Sole(pirqOf, h, virq) && pirqOf[h][virq] < lines && InStep(reg, pirqOf, host, h, virq)
    requires g < |reg| && k < WORDS
    requires forall b :: b in treated <==> b in Changed(BitsOf(reg[g][k]), BitsOf(istatus))
    ensures InStep(reg[g := reg[g][k := istatus]], pirqOf,
                   FollowAll(host, pirqOf[g], lines, k, BitsOf(istatus), treated), h, virq)
  {
    var reg' := reg[g := reg[g][k := istatus]];
    var b := virq % 32;
    if h == g && virq / 32 == k && b in treated {
      assert virq == 32 * k + b;
      forall v | v in pirqOf[g] && pirqOf[g][v] == pirqOf[g][virq]
        ensures v == virq
      {
        assert Shares(pirqOf, g, virq, g, v);
      }
      FollowBit(host, pirqOf[g], lines, k, BitsOf(istatus), treated, b);
    } else {
      forall c | c in treated
        ensures Misses(pirqOf[g], k, c, pirqOf[h][virq])
      {
        Split(k, c);
        assert !Shares(pirqOf, h, virq, g, 32 * k + c);
      }
      FollowOther(host, pirqOf[g], lines, k, BitsOf(istatus), treated, pirqOf[h][virq]);
      assert virq in VirtualEnables(reg', h) <==> virq in VirtualEnables(reg, h);
    }
  }

  // ---------------------------------------------------------------- what a changed set of enables does

  /** No virtual interrupt that is mapped to host interrupt `p` changed. */
  ghost predicate Untouched(pirqOf: map<nat, nat>, e0: set<nat>, e1: set<nat>, p: nat) {
    forall v :: v in pirqOf && pirqOf[v] == p ==> (v in e0 <==> v in e1)
  }

  /** The virtual interrupt changed, and no other is mapped to its host interrupt. */
  ghost predicate ChangedAlone(pirqOf: map<nat, nat>, e0: set<nat>, e1: set<nat>, v: nat) {
    && v in pirqOf && (v in e0 <==> v !in e1)
    && forall u :: u in pirqOf && pirqOf[u] == pirqOf[v] ==> u == v
  }

  /**
   * A guest's enables went from `e0` to `e1`. Host interrupts none of whose virtual interrupts changed stay as they
   * were. One whose only virtual interrupt changed is disabled when that was switched off, and enabled, if the host has
   * its line, when it was switched on.
   */
  ghost predicate HostFollows(pirqOf: map<nat, nat>, lines: nat, e0: set<nat>, e1: set<nat>,
                              host0: set<nat>, host1: set<nat>)
  {
    && (forall p :: Untouched(pirqOf, e0, e1, p) ==> (p in host1 <==> p in host0))
    && (forall v :: ChangedAlone(pirqOf, e0, e1, v) ==>
          (pirqOf[v] in host1 <==> v in e1 && (pirqOf[v] < lines || pirqOf[v] in host0)))
  }

  /** The host interrupts of the virtual interrupts that were switched on. */
  function Gained(pirqOf: map<nat, nat>, e0: set<nat>, e1: set<nat>): set<nat> {
    set v | v in e1 && v !in e0 && v in pirqOf :: pirqOf[v]
  }

  /** The marks gain exactly those. */
  ghost predicate MarksGain(pirqOf: map<nat, nat>, e0: set<nat>, e1: set<nat>, marks0: set<nat>, marks1: set<nat>) {
    marks1 == marks0 + Gained(pirqOf, e0, e1)
  }

  /** Guest `g`'s word `k` became `istatus`, and `treated` lists the changed bits. */
  ghost predicate Rewritten(reg: seq<seq<word>>, g: nat, k: nat, istatus: word, treated: seq<nat>,
                            e0: set<nat>, e1: set<nat>)
  {
    && g < |reg| && |reg[g]| == WORDS && k < WORDS
    && e0 == VirtualEnables(reg, g) && e1 == VirtualEnables(reg[g := reg[g][k := istatus]], g)
    && forall b :: b in treated <==> b in Changed(BitsOf(reg[g][k]), BitsOf(istatus))
  }

  lemma RewrittenAt(reg: seq<seq<word>>, g: nat, k: nat, istatus: word, treated: seq<nat>,
                    e0: set<nat>, e1: set<nat>, v: nat)
    requires Rewritten(reg, g, k, istatus, treated, e0, e1)
    ensures (v in e0 <==> v !in e1) <==> v / 32 == k && v % 32 in treated
    ensures v / 32 == k ==> (v in e1 <==> v % 32 in BitsOf(istatus))
  {
  }

  lemma HostFollowed(reg: seq<seq<word>>, g: nat, k: nat, istatus: word, treated: seq<nat>, e0: set<nat>, e1: set<nat>,
                     pirqOf: map<nat, nat>, lines: nat, host: set<nat>)
    requires Rewritten(reg, g, k, istatus, treated, e0, e1) == true
    ensures HostFollows(pirqOf, lines, e0, e1, host,
                        FollowAll(host, pirqOf, lines, k, BitsOf(istatus), treated)) == true
  {
    var host1 := FollowAll(host, pirqOf, lines, k, BitsOf(istatus), treated);
    forall p: nat | Untouched(pirqOf, e0, e1, p)
      ensures p in host1 <==> p in host
    {
      forall b | b in treated
        ensures Misses(pirqOf, k, b, p)
      {
        Split(k, b);
        RewrittenAt(reg, g, k, istatus, treated, e0, e1, 32 * k + b);
      }
      FollowOther(host, pirqOf, lines, k, BitsOf(istatus), treated, p);
    }
    forall v: nat | ChangedAlone(pirqOf, e0, e1, v)
      ensures pirqOf[v] in host1 <==> v in e1 && (pirqOf[v] < lines || pirqOf[v] in host)
    {
      RewrittenAt(reg, g, k, istatus, treated, e0, e1, v);
      assert v == 32 * k + v % 32;
      FollowBit(host, pirqOf, lines, k, BitsOf(istatus), treated, v % 32);
    }
  }

  lemma MarksGained(reg: seq<seq<word>>, g: nat, k: nat, istatus: word, treated: seq<nat>, e0: set<nat>, e1: set<nat>,
                    pirqOf: map<nat, nat>, marks: set<nat>)
    requires Rewritten(reg, g, k, istatus, treated, e0, e1) == true
    ensures MarksGain(pirqOf, e0, e1, marks, marks + Marked(pirqOf, k, BitsOf(istatus), treated)) == true
  {
    GainMarked(reg, g, k, istatus, treated, e0, e1, pirqOf);
    MarkedGain(reg, g, k, istatus, treated, e0, e1, pirqOf);
  }

  lemma GainMarked(reg: seq<seq<word>>, g: nat, k: nat, istatus: word, treated: seq<nat>, e0: set<nat>, e1: set<nat>,
                   pirqOf: map<nat, nat>)
    requires Rewritten(reg, g, k, istatus, treated, e0, e1) == true
    ensures Gained(pirqOf, e0, e1) <= Marked(pirqOf, k, BitsOf(istatus), treated)
  {
    forall v | v in e1 && v !in e0 && v in pirqOf
      ensures pirqOf[v] in Marked(pirqOf, k, BitsOf(istatus), treated)
    {
      RewrittenAt(reg, g, k, istatus, treated, e0, e1, v);
      assert v == 32 * k + v % 32;
    }
  }

  lemma MarkedGain(reg: seq<seq<word>>, g: nat, k: nat, istatus: word, treated: seq<nat>, e0: set<nat>, e1: set<nat>,
                   pirqOf: map<nat, nat>)
    requires Rewritten(reg, g, k, istatus, treated, e0, e1) == true
    ensures Marked(pirqOf, k, BitsOf(istatus), treated) <= Gained(pirqOf, e0, e1)
  {
    forall b | b in treated && b in BitsOf(istatus) && 32 * k + b in pirqOf
      ensures pirqOf[32 * k + b] in Gained(pirqOf, e0, e1)
    {
      Split(k, b);
      RewrittenAt(reg, g, k, istatus, treated, e0, e1, 32 * k + b);
    }
  }

  // ---------------------------------------------------------------- one bit set

  /** The width of an access in bytes. */
  function Width(size: Size): nat {
    match size
    case ByteAccess => 1
    case HalfAccess => 2
    case WordAccess => 4
  }

  /** The first interrupt an access covers: eight to a byte of the bank, the offset aligned down to the access. */
  function First(offset: nat, size: Size): nat {
    8 * (offset % 0x80 / Width(size) * Width(size))
  }

  /** The virtual interrupts that an access with this value addresses. */
  function Covered(value: set<nat>, offset: nat, size: Size): set<nat> {
    set b | b in value && b < Bits(size) :: First(offset, size) + b
  }

  lemma BankOffset(offset: nat)
    ensures offset % 0x80 == 4 * (offset / 4 % 32) + offset % 4
  {
    assert offset / 4 == 32 * (offset / 0x80) + offset % 0x80 / 4;
  }

  lemma HalfOffset(k: nat, b: nat)
    ensures (4 * k + b) / 2 == 2 * k + b / 2
  {
  }

  /** The lane of the word at `offset` holds just the interrupts the access covers. */
  lemma FirstOfLane(offset: nat, size: Size)
    ensures First(offset, size) == 32 * (offset / 4 % 32) + Lane(offset, size)
  {
    BankOffset(offset);
    match size
    case ByteAccess =>
    case HalfAccess => HalfOffset(offset / 4 % 32, offset % 4);
    case WordAccess =>
  }

  /** The access covers the interrupt: eight to a byte of the bank, a wider access starting at a multiple of its
      width. */
  predicate InAccess(offset: nat, size: Size, virq: nat) {
    match size
    case ByteAccess => virq / 8 == offset % 0x80
    case HalfAccess => virq / 16 == offset % 0x80 / 2
    case WordAccess => virq / 32 == offset % 0x80 / 4
  }

  /** The bit of the value that stands for the interrupt. */
  predicate BitOf(size: Size, value: word, virq: nat) {
    match size
    case ByteAccess => Bit(value, virq % 8)
    case HalfAccess => Bit(value, virq % 16)
    case WordAccess => Bit(value, virq % 32)
  }

  /** Written with this value, the access switches the interrupt. */
  predicate Addressed(offset: nat, size: Size, value: word, virq: nat) {
    InAccess(offset, size, virq) && BitOf(size, value, virq)
  }

  /** From `e0` to `e1` exactly the interrupts addressed were switched on, or off. */
  ghost predicate SwitchedBy(offset: nat, size: Size, value: word, on: bool, e0: set<nat>, e1: set<nat>) {
    forall virq: nat :: virq in e1 <==>
      if on then virq in e0 || Addressed(offset, size, value, virq)
      else virq in e0 && !Addressed(offset, size, value, virq)
  }

  lemma SwitchedIs(offset: nat, size: Size, value: word, on: bool, e0: set<nat>, e1: set<nat>)
    requires var c := Covered(BitsOf(value), offset, size); e1 == if on then e0 + c else e0 - c
    ensures SwitchedBy(offset, size, value, on, e0, e1) == true
  {
    forall virq: nat
      ensures virq in e1 <==> if on then virq in e0 || Addressed(offset, size, value, virq)
                              else virq in e0 && !Addressed(offset, size, value, virq)
    {
      CoveredIs(value, offset, size, virq);
    }
  }

  /** The value read shows for every interrupt of the access whether it is enabled, and has no bit above those. */
  ghost predicate ShownBy(offset: nat, size: Size, value: word, e: set<nat>) {
    && (forall virq: nat :: InAccess(offset, size, virq) ==> (BitOf(size, value, virq) <==> virq in e))
    && forall b :: b in BitsOf(value) ==> b < if size == ByteAccess then 8 else if size == HalfAccess then 16 else 32
  }

  lemma ShownIs(offset: nat, size: Size, value: word, e: set<nat>)
    requires forall b: nat :: b in BitsOf(value) <==> b < Bits(size) && First(offset, size) + b in e
    ensures ShownBy(offset, size, value, e) == true
  {
    forall virq: nat | InAccess(offset, size, virq)
      ensures BitOf(size, value, virq) <==> virq in e
    {
      var first, n := First(offset, size), Bits(size);
      assert first <= virq < first + n && virq - first == virq % n;
      assert virq % n in BitsOf(value) <==> first + virq % n in e;
    }
  }

  lemma CoveredIs(value: word, offset: nat, size: Size, virq: nat)
    ensures virq in Covered(BitsOf(value), offset, size) <==> InAccess(offset, size, virq) && BitOf(size, value, virq)
  {
    var first, n := First(offset, size), Bits(size);
    assert InAccess(offset, size, virq) <==> first <= virq < first + n;
    if first <= virq < first + n {
      assert virq - first == virq % n;
      assert first + (virq - first) == virq;
    }
  }

  lemma CoveredAt(value: set<nat>, offset: nat, size: Size, virq: nat)
    ensures virq in Covered(value, offset, size) <==>
      virq / 32 == offset / 4 % 32 && virq % 32 in Placed(value, Lane(offset, size), size)
  {
    var k, s := offset / 4 % 32, Lane(offset, size);
    FirstOfLane(offset, size);
    if virq in Covered(value, offset, size) {
      var b :| b in value && b < Bits(size) && virq == First(offset, size) + b;
      Split(k, s + b);
    }
    if virq / 32 == k && virq % 32 in Placed(value, s, size) {
      var b :| b in value && b < Bits(size) && virq % 32 == s + b;
      assert virq == First(offset, size) + b;
    }
  }

  /** A word that gained, or lost, the placed bits of a value enables, or disables, exactly the interrupts addressed. */
  lemma WordIsSlice(reg: seq<seq<word>>, g: nat, offset: nat, size: Size, value: set<nat>, istatus: word)
    requires g < |reg| && |reg[g]| == WORDS && offset / 4 % 32 < WORDS
    ensures var k, p := offset / 4 % 32, Placed(value, Lane(offset, size), size);
      && (BitsOf(istatus) == BitsOf(reg[g][k]) + p ==>
        VirtualEnables(reg[g := reg[g][k := istatus]], g) == VirtualEnables(reg, g) + Covered(value, offset, size))
      && (BitsOf(istatus) == BitsOf(reg[g][k]) - p ==>
        VirtualEnables(reg[g := reg[g][k := istatus]], g) == VirtualEnables(reg, g) - Covered(value, offset, size))
  {
    var k, p, e := offset / 4 % 32, Placed(value, Lane(offset, size), size), VirtualEnables(reg, g);
    var v := VirtualEnables(reg[g := reg[g][k := istatus]], g);
    forall virq: nat
      ensures BitsOf(istatus) == BitsOf(reg[g][k]) + p ==>
        (virq in v <==> virq in e + Covered(value, offset, size))
      ensures BitsOf(istatus) == BitsOf(reg[g][k]) - p ==>
        (virq in v <==> virq in e - Covered(value, offset, size))
    {
      CoveredAt(value, offset, size, virq);
    }
  }

  /** The value of a lane shows exactly which of the covered interrupts are enabled. */
  lemma FetchedIsSlice(reg: seq<seq<word>>, g: nat, offset: nat, size: Size, b: nat)
    requires g < |reg| && |reg[g]| == WORDS && offset / 4 % 32 < WORDS && b < Bits(size)
    ensures b in Fetched(BitsOf(reg[g][offset / 4 % 32]), Lane(offset, size), size) <==>
      First(offset, size) + b in VirtualEnables(reg, g)
  {
    FirstOfLane(offset, size);
    Split(offset / 4 % 32, Lane(offset, size) + b);
    var w := BitsOf(reg[g][offset / 4 % 32]);
    assert b in Fetched(w, Lane(offset, size), size) <==> Above(w, Lane(offset, size), b);
  }

  // ---------------------------------------------------------------- shared interrupts

  /**
   * A host interrupt that two guests map follows whichever changed its bit last: the other guest stays in step
   * exactly when its own bit agrees.
   */
  lemma SharedFollowsLast(reg: seq<seq<word>>, pirqOf: seq<map<nat, nat>>, lines: nat, host: set<nat>,
                          g: nat, k: nat, istatus: word, treated: seq<nat>, b: nat, h: nat, virq: nat)
    requires Layout(reg, pirqOf) && g < |reg| && h < |reg| && h != g && k < WORDS
    requires forall c :: c in treated <==> c in Changed(BitsOf(reg[g][k]), BitsOf(istatus))
    requires b in treated && 32 * k + b in pirqOf[g] && pirqOf[g][32 * k + b] < lines
    requires forall v :: v in pirqOf[g] && pirqOf[g][v] == pirqOf[g][32 * k + b] ==> v == 32 * k + b
    requires virq < 32 * WORDS && Shares(pirqOf, g, 32 * k + b, h, virq)
    ensures InStep(reg[g := reg[g][k := istatus]], pirqOf,
                   FollowAll(host, pirqOf[g], lines, k, BitsOf(istatus), treated), h, virq)
        <==> (virq in VirtualEnables(reg, h) <==> b in BitsOf(istatus))
  {
    FollowBit(host, pirqOf[g], lines, k, BitsOf(istatus), treated, b);
    var reg' := reg[g := reg[g][k := istatus]];
    assert VirtualEnables(reg', h) == VirtualEnables(reg, h);
  }
}
