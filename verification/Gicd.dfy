/** The trapped set-enable and clear-enable registers of the virtual distributor. */
module Gicd {
  import opened Enables
  import opened Lanes
  import opened Word

  const GICD_ISENABLER: nat := 0x40
  const GICD_ICENABLER: nat := 0x60

  datatype Outcome = Success | BadAccess

  predicate Descending(s: seq<nat>) {
    forall i, j :: 0 <= i < j < |s| ==> s[i] > s[j]
  }

  /** The bits treated so far are above the ones left, which all the changed bits are. */
  ghost predicate Treating(all: set<nat>, treated: seq<nat>, left: set<nat>) {
    && Descending(treated)
    && (forall b :: b in all <==> b in treated || b in left)
    && (forall b, c :: b in treated && c in left ==> b > c)
  }

  lemma TreatNext(all: set<nat>, treated: seq<nat>, left: set<nat>, b: nat)
    requires Treating(all, treated, left) && b in left && forall c :: c in left ==> c <= b
    ensures Treating(all, treated + [b], left - {b})
  {
    var s := treated + [b];
    forall i, j | 0 <= i < j < |s|
      ensures s[i] > s[j]
    {
      assert s[i] in treated;
    }
    forall c | c in s
      ensures c in treated || c == b
    {
    }
  }

  /** Host enables and marks after the bits treated so far. */
  ghost predicate Followed(host0: set<nat>, enabled0: seq<set<nat>>, host: set<nat>, enabled: seq<set<nat>>,
                           pirqOf: map<nat, nat>, lines: nat, g: nat, k: nat, istatus: set<nat>, treated: seq<nat>)
  {
    && g < |enabled0| && host == FollowAll(host0, pirqOf, lines, k, istatus, treated)
    && enabled == enabled0[g := enabled0[g] + Marked(pirqOf, k, istatus, treated)]
  }

  lemma NothingFollowed(host: set<nat>, enabled: seq<set<nat>>, pirqOf: map<nat, nat>, lines: nat, g: nat, k: nat,
                        istatus: set<nat>)
    requires g < |enabled|
    ensures Followed(host, enabled, host, enabled, pirqOf, lines, g, k, istatus, [])
  {
    assert Marked(pirqOf, k, istatus, []) == {};
    assert enabled[g] + {} == enabled[g];
    assert enabled[g := enabled[g]] == enabled;
  }

  /** One bit more, treated as `Distributor.ChangedBit` does. */
  lemma FollowedMore(host0: set<nat>, enabled0: seq<set<nat>>, host: set<nat>, enabled: seq<set<nat>>,
                     pirqOf: map<nat, nat>, lines: nat, g: nat, k: nat, istatus: set<nat>, treated: seq<nat>, b: nat)
    requires Followed(host0, enabled0, host, enabled, pirqOf, lines, g, k, istatus, treated)
    ensures Followed(host0, enabled0, Follow(host, pirqOf, lines, 32 * k + b, b in istatus),
                     enabled[g := enabled[g] + MarkedBit(pirqOf, k, istatus, b)],
                     pirqOf, lines, g, k, istatus, treated + [b])
  {
    FollowMore(host0, pirqOf, lines, k, istatus, treated, b);
    MarkedMore(pirqOf, k, istatus, treated, b);
    var m, x := Marked(pirqOf, k, istatus, treated), MarkedBit(pirqOf, k, istatus, b);
    assert (enabled0[g] + m) + x == enabled0[g] + (m + x);
  }

  /** The words whose bits the two banks of registers set and clear. */
  predicate SetBank(w: nat) {
    GICD_ISENABLER <= w < GICD_ISENABLER + WORDS
  }

  predicate ClearBank(w: nat) {
    GICD_ICENABLER <= w < GICD_ICENABLER + WORDS
  }

  /** The banks lie at offsets 0x100 and 0x180, a word for every 32 interrupts. */
  lemma BankNumbers(offset: nat)
    ensures SetBank(offset / 4) <==> 0x100 <= offset < 0x114
    ensures ClearBank(offset / 4) <==> 0x180 <= offset < 0x194
  {
  }

  class Distributor {
    const pirqOf: seq<map<nat, nat>>
    const lines: nat
    /** The enable words of each guest; word 0 is its banked copy. */
    var reg: seq<seq<word>>
    /** The words as they were last followed. */
    var seen: seq<seq<word>>
    var host: set<nat>
    /** Per guest, the host interrupts marked enabled in its map. */
    var enabled: seq<set<nat>>

    ghost predicate Valid()
      reads this
    {
      && Layout(reg, pirqOf) && seen == reg && |enabled| == |reg|
      && Synced(reg, pirqOf, lines, host)
    }

    /** Nothing enabled. */
    constructor (maps: seq<map<nat, nat>>, n: nat)
      ensures Valid() && pirqOf == maps && lines == n && host == {}
      ensures reg == seq(|maps|, g => [0, 0, 0, 0, 0])
    {
      pirqOf, lines := maps, n;
      var none: seq<seq<word>> := seq(|maps|, g => [0, 0, 0, 0, 0]);
      NoneEnabled(maps, n);
      reg, seen, host := none, none, {};
      enabled := seq(|maps|, g => {});
    }

    /** One changed bit. */
    method ChangedBit(vmid: nat, istatus: word, k: nat, bit: nat)
      requires vmid < |enabled| == |pirqOf| && bit < 32
      modifies this`host, this`enabled
      ensures host == Follow(old(host), pirqOf[vmid], lines, 32 * k + bit, bit in BitsOf(istatus))
      ensures enabled == old(enabled)[vmid := old(enabled)[vmid] + MarkedBit(pirqOf[vmid], k, BitsOf(istatus), bit)]
    {
      var virq := 32 * k + bit;
      if virq in pirqOf[vmid] {
        var pirq := pirqOf[vmid][virq];
        if Bit(istatus, bit) {
          host := HostConfigure(host, pirq, lines);
          enabled := enabled[vmid := enabled[vmid] + {pirq}];
          return;
        }
        host := host - {pirq};
      }
      assert enabled[vmid] + {} == enabled[vmid] && enabled[vmid := enabled[vmid]] == enabled;
    }

    /** Follows the changed bits of a word from the highest down, each once, and remembers the word. */
    method ChangedIstatus(vmid: nat, istatus: word, k: nat) returns (treated: seq<nat>)
      requires vmid < |seen| == |enabled| == |pirqOf| && k < |seen[vmid]|
      modifies this`seen, this`host, this`enabled
      ensures Descending(treated)
      ensures forall b :: b in treated <==> b in Changed(BitsOf(old(seen)[vmid][k]), BitsOf(istatus))
      ensures host == FollowAll(old(host), pirqOf[vmid], lines, k, BitsOf(istatus), treated)
      ensures enabled == old(enabled)[vmid := old(enabled)[vmid] + Marked(pirqOf[vmid], k, BitsOf(istatus), treated)]
      ensures seen == old(seen)[vmid := old(seen)[vmid][k := istatus]]
    {
      var cstatus := Xor(seen[vmid][k], istatus);
      ghost var all := BitsOf(cstatus);
      treated := [];
      NothingFollowed(host, enabled, pirqOf[vmid], lines, vmid, k, BitsOf(istatus));
      ZeroIsEmpty(cstatus);
      while cstatus != 0
        invariant Treating(all, treated, BitsOf(cstatus)) && seen == old(seen)
        invariant Followed(old(host), old(enabled), host, enabled, pirqOf[vmid], lines, vmid,
                           k, BitsOf(istatus), treated)
        invariant cstatus == 0 <==> BitsOf(cstatus) == {}
        decreases |BitsOf(cstatus)|
      {
        var bit, rest := TakeLast(cstatus);
        TreatNext(all, treated, BitsOf(cstatus), bit);
        FollowedMore(old(host), old(enabled), host, enabled, pirqOf[vmid], lines, vmid,
                     k, BitsOf(istatus), treated, bit);
        ChangedBit(vmid, istatus, k, bit);
        treated := treated + [bit];
        cstatus := rest;
        ZeroIsEmpty(cstatus);
      }
      seen := seen[vmid := seen[vmid][k := istatus]];
    }

    /** A word of the guest becomes `istatus`, and the host follows. */
    method Rewrite(vmid: nat, k: nat, istatus: word)
      requires Valid() && vmid < |reg| && k < WORDS
      modifies this`reg, this`seen, this`host, this`enabled
      ensures Valid() && reg == old(reg)[vmid := old(reg)[vmid][k := istatus]]
      ensures FollowedFrom(vmid, old(reg), old(host), old(enabled)) == true
    {
      ghost var reg0, host0, enabled0 := reg, host, enabled;
      reg := reg[vmid := reg[vmid][k := istatus]];
      var treated := ChangedIstatus(vmid, istatus, k);
      SyncedStep(reg0, pirqOf, lines, host0, vmid, k, istatus, treated);
      ghost var e0, e1 := VirtualEnables(reg0, vmid), VirtualEnables(reg, vmid);
      HostFollowed(reg0, vmid, k, istatus, treated, e0, e1, pirqOf[vmid], lines, host0);
      MarksGained(reg0, vmid, k, istatus, treated, e0, e1, pirqOf[vmid], enabled0[vmid]);
    }

    /** The host and the guest's marks went along with the guest's enables; the other guests' marks are untouched. */
    ghost predicate FollowedFrom(vmid: nat, reg0: seq<seq<word>>, host0: set<nat>, enabled0: seq<set<nat>>)
      reads this`reg, this`host, this`enabled
    {
      && Layout(reg0, pirqOf) && Layout(reg, pirqOf) && vmid < |reg| && |enabled0| == |enabled| == |reg|
      && HostFollows(pirqOf[vmid], lines, VirtualEnables(reg0, vmid), VirtualEnables(reg, vmid), host0, host)
      && MarksGain(pirqOf[vmid], VirtualEnables(reg0, vmid), VirtualEnables(reg, vmid), enabled0[vmid], enabled[vmid])
      && forall g :: 0 <= g < |reg| && g != vmid ==> enabled[g] == enabled0[g]
    }

    lemma NothingChanged(vmid: nat)
      requires Layout(reg, pirqOf) && vmid < |reg| == |enabled|
      ensures FollowedFrom(vmid, reg, host, enabled) == true
    {
      var e := VirtualEnables(reg, vmid);
      assert Gained(pirqOf[vmid], e, e) == {};
    }

    /**
     * A trapped access at `offset`, by byte, halfword or word. A write sets or clears exactly the interrupts it
     * covers; a read at either bank shows which of them are enabled; anything outside the two banks is refused.
     */
    method HandleEnable(vmid: nat, write: bool, offset: nat, value: word, size: Size)
      returns (result: Outcome, out: word)
      requires Valid() && vmid < |reg| && 0x100 <= offset < 0x200
      modifies this`reg, this`seen, this`host, this`enabled
      ensures Valid() && |reg| == |old(reg)|
      ensures result == BadAccess <==> !(write && value == 0) && !SetBank(offset / 4) && !ClearBank(offset / 4)
      ensures forall g :: 0 <= g < |reg| && g != vmid ==> reg[g] == old(reg)[g]
      ensures !write || result == BadAccess ==> reg == old(reg)
      ensures write && SetBank(offset / 4) ==>
        VirtualEnables(reg, vmid) == VirtualEnables(old(reg), vmid) + Covered(BitsOf(value), offset, size)
      ensures write && ClearBank(offset / 4) ==>
        VirtualEnables(reg, vmid) == VirtualEnables(old(reg), vmid) - Covered(BitsOf(value), offset, size)
      ensures FollowedFrom(vmid, old(reg), old(host), old(enabled)) == true
      ensures write && SetBank(offset / 4) ==>
        SwitchedBy(offset, size, value, true, VirtualEnables(old(reg), vmid), VirtualEnables(reg, vmid)) == true
      ensures write && ClearBank(offset / 4) ==>
        SwitchedBy(offset, size, value, false, VirtualEnables(old(reg), vmid), VirtualEnables(reg, vmid)) == true
      ensures !write && result == Success ==> ShownBy(offset, size, out, VirtualEnables(reg, vmid)) == true
    {
      if write {
        out := value;
        result := WriteBank(vmid, offset, value, size);
      } else {
        result, out := ReadBank(vmid, offset, value, size);
        NothingChanged(vmid);
      }
    }

    /** A write that sets or clears nothing succeeds at once. */
    method WriteBank(vmid: nat, offset: nat, value: word, size: Size) returns (result: Outcome)
      requires Valid() && vmid < |reg| && 0x100 <= offset < 0x200
      modifies this`reg, this`seen, this`host, this`enabled
      ensures Valid() == true && |reg| == |old(reg)|
      ensures result == BadAccess <==> value != 0 && !SetBank(offset / 4) && !ClearBank(offset / 4)
      ensures forall g :: 0 <= g < |reg| && g != vmid ==> reg[g] == old(reg)[g]
      ensures result == BadAccess ==> reg == old(reg)
      ensures |reg[vmid]| == WORDS && FollowedFrom(vmid, old(reg), old(host), old(enabled)) == true
      ensures var e, e', c := VirtualEnables(old(reg), vmid), VirtualEnables(reg, vmid),
          Covered(BitsOf(value), offset, size);
        && (SetBank(offset / 4) ==> e' == e + c && SwitchedBy(offset, size, value, true, e, e') == true)
        && (ClearBank(offset / 4) ==> e' == e - c && SwitchedBy(offset, size, value, false, e, e') == true)
    {
      var w := offset / 4;
      result := Success;
      if value == 0 {
        NothingCovered(value, offset, size, VirtualEnables(reg, vmid));
        NothingChanged(vmid);
      } else if w < GICD_ISENABLER + WORDS {
        Change(vmid, w - GICD_ISENABLER, offset, size, value, true);
      } else if GICD_ICENABLER <= w && w < GICD_ICENABLER + WORDS {
        Change(vmid, w - GICD_ICENABLER, offset, size, value, false);
      } else {
        NothingChanged(vmid);
        result := BadAccess;
      }
    }

    method ReadBank(vmid: nat, offset: nat, value: word, size: Size) returns (result: Outcome, out: word)
      requires Valid() && vmid < |reg| && 0x100 <= offset < 0x200
      ensures result == BadAccess <==> !SetBank(offset / 4) && !ClearBank(offset / 4)
      ensures result == BadAccess ==> out == value
      ensures result == Success ==> ShownBy(offset, size, out, VirtualEnables(reg, vmid)) == true
    {
      var w := offset / 4;
      result, out := Success, value;
      if w < GICD_ISENABLER + WORDS {
        out := Read(vmid, w - GICD_ISENABLER, offset, size);
      } else if GICD_ICENABLER <= w && w < GICD_ICENABLER + WORDS {
        out := Read(vmid, w - GICD_ICENABLER, offset, size);
      } else {
        result := BadAccess;
      }
    }

    /** A write to word `k` of either bank. */
    method Change(vmid: nat, k: nat, offset: nat, size: Size, value: word, on: bool)
      requires Valid() && vmid < |reg| && k == offset / 4 % 32 < WORDS
      modifies this`reg, this`seen, this`host, this`enabled
      ensures Valid() == true && |reg| == |old(reg)| && |reg[vmid]| == WORDS
      ensures forall g :: 0 <= g < |reg| && g != vmid ==> reg[g] == old(reg)[g]
      ensures VirtualEnables(reg, vmid) ==
        if on then VirtualEnables(old(reg), vmid) + Covered(BitsOf(value), offset, size)
        else VirtualEnables(old(reg), vmid) - Covered(BitsOf(value), offset, size)
      ensures SwitchedBy(offset, size, value, on, VirtualEnables(old(reg), vmid), VirtualEnables(reg, vmid)) == true
      ensures FollowedFrom(vmid, old(reg), old(host), old(enabled)) == true
    {
      ghost var e := VirtualEnables(reg, vmid);
      var istatus;
      if on {
        istatus := SetIn(reg[vmid][k], offset, size, value);
      } else {
        istatus := ClearOut(reg[vmid][k], offset, size, value);
      }
      WordIsSlice(reg, vmid, offset, size, BitsOf(value), istatus);
      Rewrite(vmid, k, istatus);
      SwitchedIs(offset, size, value, on, e, VirtualEnables(reg, vmid));
    }

    /** A read of word `k` of either bank. */
    method Read(vmid: nat, k: nat, offset: nat, size: Size) returns (out: word)
      requires Layout(reg, pirqOf) && vmid < |reg| && k == offset / 4 % 32 < WORDS
      ensures ShownBy(offset, size, out, VirtualEnables(reg, vmid)) == true
    {
      out := Fetch(vmid, k, offset, size);
      ShownIs(offset, size, out, VirtualEnables(reg, vmid));
    }

    /** The lane's bits are the enables of the interrupts covered. */
    method Fetch(vmid: nat, k: nat, offset: nat, size: Size) returns (out: word)
      requires Layout(reg, pirqOf) && vmid < |reg| && k == offset / 4 % 32 < WORDS
      ensures forall b: nat :: b in BitsOf(out) <==>
        b < Bits(size) && First(offset, size) + b in VirtualEnables(reg, vmid)
    {
      if size == WordAccess {
        out := reg[vmid][k];
      } else {
        out := Load(reg[vmid][k], Lane(offset, size), size);
      }
      forall b: nat
        ensures b in BitsOf(out) <==> b < Bits(size) && First(offset, size) + b in VirtualEnables(reg, vmid)
      {
        if b < Bits(size) {
          FetchedIsSlice(reg, vmid, offset, size, b);
        }
      }
    }
  }

  /** A whole word is or-ed at once, a byte or halfword through a pointer to it. */
  method SetIn(w: word, offset: nat, size: Size, value: word) returns (r: word)
    ensures BitsOf(r) == BitsOf(w) + Placed(BitsOf(value), Lane(offset, size), size)
  {
    if size == WordAccess {
      r := Or(w, value);
    } else {
      r := OrInto(w, Lane(offset, size), size, value);
    }
  }

  method ClearOut(w: word, offset: nat, size: Size, value: word) returns (r: word)
    ensures BitsOf(r) == BitsOf(w) - Placed(BitsOf(value), Lane(offset, size), size)
  {
    if size == WordAccess {
      r := AndNot(w, value);
    } else {
      r := ClearIn(w, Lane(offset, size), size, value);
    }
  }

  lemma NothingCovered(value: word, offset: nat, size: Size, e: set<nat>)
    requires value == 0
    ensures Covered(BitsOf(value), offset, size) == {}
    ensures SwitchedBy(offset, size, value, true, e, e) == true && SwitchedBy(offset, size, value, false, e, e) == true
  {
    ZeroIsEmpty(value);
    SwitchedIs(offset, size, value, true, e, e);
    SwitchedIs(offset, size, value, false, e, e);
  }

  lemma NoneEnabled(pirqOf: seq<map<nat, nat>>, lines: nat)
    ensures var reg: seq<seq<word>> := seq(|pirqOf|, g => [0, 0, 0, 0, 0]);
      Layout(reg, pirqOf) && Synced(reg, pirqOf, lines, {})
  {
    var reg: seq<seq<word>> := seq(|pirqOf|, g => [0, 0, 0, 0, 0]);
    ZeroIsEmpty(0);
    forall g: nat | g < |reg|
      ensures VirtualEnables(reg, g) == {}
    {
    }
  }

  /** Configuring a host interrupt enables it if the distributor has its line. */
  function HostConfigure(host: set<nat>, pirq: nat, lines: nat): set<nat> {
    if pirq < lines then host + {pirq} else host
  }
}
