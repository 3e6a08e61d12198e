/** GICv2 list registers (section 5.3 of ARM IHI 0048) as vgic.c composes and reads them. */
module ListRegister {
  import opened Word

  const STATE_INACTIVE: word := 0
  const STATE_PENDING: word := 1
  const STATE_ACTIVE: word := 2

  function VirtualId(w: word): word { w & 0x3ff }
  function CpuId(w: word): word { (w >> 10) & 0x7 }
  function EoiBit(w: word): word { (w >> 19) & 0x1 }
  function Priority(w: word): word { (w >> 23) & 0x1f }
  function State(w: word): word { (w >> 28) & 0x3 }
  function HwBit(w: word): word { (w >> 31) & 0x1 }

  /** A software interrupt whose end asks for a maintenance interrupt. */
  predicate Signals(w: word) {
    HwBit(w) == 0 && EoiBit(w) == 1
  }

  /** The EISR bit: ended, and waiting for maintenance. */
  predicate EoiPending(w: word) {
    State(w) == STATE_INACTIVE && Signals(w)
  }

  /** The ELSR bit: usable without overwriting a valid interrupt or losing a maintenance request. */
  predicate Empty(w: word) {
    State(w) == STATE_INACTIVE && !Signals(w)
  }

  /** The register word `vgic_inject_virq` composes. */
  function Compose(virq: word, state: word, priority: word, hw: word, physrc: word, maintenance: word): word {
    var physicalid := (if hw != 0 then physrc else (maintenance << 9) | (physrc & 0x7)) << 10;
    (0x8000_0000 & (hw << 31))
    | (0x3000_0000 & (state << 28))
    | (0x0f80_0000 & ((priority >> 3) << 23))
    | (physicalid & 0xf_fc00)
    | (0x3ff & virq)
  }

  /** With `hw` clear and maintenance asked for, the composed word decodes back to its arguments. */
  lemma ComposeDecodes(virq: word, state: word, priority: word, physrc: word)
    ensures var w := Compose(virq, state, priority, 0, physrc, 1);
      && VirtualId(w) == virq & 0x3ff && State(w) == state & 0x3 && Priority(w) == (priority >> 3) & 0x1f
      && CpuId(w) == physrc & 0x7 && EoiBit(w) == 1 && HwBit(w) == 0
  {
  }

  /** A guest acknowledging a pending interrupt, and ending an active one: only the state field moves. */
  function Acked(w: word): word {
    (w & !0x3000_0000) | 0x2000_0000
  }

  function Ended(w: word): word {
    w & !0x3000_0000
  }

  lemma GuestMoves(w: word)
    ensures State(Acked(w)) == STATE_ACTIVE && State(Ended(w)) == STATE_INACTIVE
    ensures VirtualId(Acked(w)) == VirtualId(w) && VirtualId(Ended(w)) == VirtualId(w)
    ensures Signals(Acked(w)) == Signals(w) && Signals(Ended(w)) == Signals(w)
  {
  }

  /** The lowest register ELSR shows as empty, or the number of registers when all are in use. */
  function FreeSlot(lr: seq<word>): (s: nat)
    ensures s <= |lr|
    ensures s < |lr| ==> Empty(lr[s])
    ensures forall i :: 0 <= i < s ==> !Empty(lr[i])
  {
    if lr == [] then 0 else if Empty(lr[0]) then 0 else FreeSlot(lr[1..]) + 1
  }

  /** Reading a status register: its bit `i` shows flag `i`. */
  method ReadStatus(flags: seq<bool>) returns (w: word)
    requires |flags| <= 32
    ensures forall i: nat :: i in BitsOf(w) <==> i < |flags| && flags[i]
  {
    w := 0;
    for k := 0 to |flags|
      invariant forall i: nat :: i in BitsOf(w) <==> i < k && flags[i]
    {
      if flags[k] {
        w := SetBit(w, k);
      }
    }
  }
}
