/** The registers of guests that share one CPU, saved and restored at each switch. */
module Context {
  import opened Machine

  const GPRS: nat := 13

  /** The trap frame. */
  datatype Frame = Frame(cpsr: Word, pc: Word, lr: Word, gpr: seq<Word>)

  datatype Banked = Banked(
    spUsr: Word,
    spsrSvc: Word, spSvc: Word, lrSvc: Word,
    spsrAbt: Word, spAbt: Word, lrAbt: Word,
    spsrUnd: Word, spUnd: Word, lrUnd: Word,
    spsrIrq: Word, spIrq: Word, lrIrq: Word,
    spsrFiq: Word, lrFiq: Word, r8Fiq: Word, r9Fiq: Word, r10Fiq: Word, r11Fiq: Word, r12Fiq: Word)

  datatype Cop = Cop(vbar: Word, ttbr0: Word, ttbr1: Word, ttbcr: Word, sctlr: Word)

  /** Everything a switch saves and restores. */
  datatype Registers = Registers(frame: Frame, banked: Banked, cop: Cop, vmpidr: Word)

  predicate Complete(r: Registers) {
    |r.frame.gpr| == GPRS
  }

  // ---------------------------------------------------------------- runs

  /** What a guest does between two traps: any change of its registers that leaves the identification register alone. */
  ghost predicate GuestStep(f: Registers -> Registers) {
    forall r :: Complete(r) ==> Complete(f(r)) && f(r).vmpidr == r.vmpidr
  }

  datatype Event = Run(step: Registers -> Registers) | Switch(to: nat)

  datatype State = State(live: Registers, saved: seq<Registers>, current: nat)

  /** The registers of guest `g`: the live ones while it runs, the saved ones otherwise. */
  function View(s: State, g: nat): Registers
    requires g < |s.saved|
  {
    if g == s.current then s.live else s.saved[g]
  }

  predicate Fits(s: State, events: seq<Event>) {
    s.current < |s.saved| && forall i :: 0 <= i < |events| && events[i].Switch? ==> events[i].to < |s.saved|
  }

  function Step(s: State, e: Event): State
    requires s.current < |s.saved| && (e.Switch? ==> e.to < |s.saved|)
  {
    match e
    case Run(f) => s.(live := f(s.live))
    case Switch(to) => if to == s.current then s else State(s.saved[to], s.saved[s.current := s.live], to)
  }

  function Execute(s: State, events: seq<Event>): (r: State)
    requires Fits(s, events)
    ensures |r.saved| == |s.saved| && r.current < |r.saved|
    decreases |events|
  {
    if events == [] then s else Execute(Step(s, events[0]), events[1..])
  }

  /** Guest `g` by itself: only the steps made while it runs, on its own registers. */
  function Alone(r: Registers, running: nat, events: seq<Event>, g: nat): Registers
    decreases |events|
  {
    if events == [] then r
    else match events[0]
      case Run(f) => Alone(if running == g then f(r) else r, running, events[1..], g)
      case Switch(to) => Alone(r, to, events[1..], g)
  }

  /** Time-multiplexing is transparent: in every run each guest's registers are those of its own steps alone. */
  lemma {:induction false} RunIsTransparent(s: State, events: seq<Event>, g: nat)
    requires Fits(s, events) && g < |s.saved|
    ensures View(Execute(s, events), g) == Alone(View(s, g), s.current, events, g)
    decreases |events|
  {
    if events != [] {
      var u := Step(s, events[0]);
      assert View(u, g) == if events[0].Run? && s.current == g then events[0].step(s.live) else View(s, g);
      assert u.current == if events[0].Switch? then events[0].to else s.current;
      RunIsTransparent(u, events[1..], g);
    }
  }

  // ---------------------------------------------------------------- the CPU

  method CopyRegs(src: Frame) returns (dst: Frame)
    requires |src.gpr| == GPRS
    ensures dst == src
  {
    dst := Frame(src.cpsr, src.pc, src.lr, []);
    for i := 0 to GPRS
      invariant dst == Frame(src.cpsr, src.pc, src.lr, src.gpr[..i])
    {
      dst := dst.(gpr := dst.gpr + [src.gpr[i]]);
    }
  }

  class Cpu {
    var frame: Frame
    var banked: Banked
    var cop: Cop
    var vmpidr: Word
    var vcpu: seq<Registers>
    var current: nat
    /** The registers each guest would have had on a CPU of its own. */
    ghost var alone: seq<Registers>

    ghost function Live(): Registers
      reads this
    {
      Registers(frame, banked, cop, vmpidr)
    }

    ghost function Abstract(): State
      reads this
    {
      State(Live(), vcpu, current)
    }

    ghost predicate Valid()
      reads this
    {
      && current < |vcpu| == |alone|
      && (forall g :: 0 <= g < |vcpu| ==> View(Abstract(), g) == alone[g])
      && (forall g :: 0 <= g < |vcpu| ==> Complete(alone[g]) && Complete(vcpu[g]))
    }

    /** Guests as initialized, the first of them live. */
    constructor (guests: seq<Registers>)
      requires guests != [] && forall g :: 0 <= g < |guests| ==> Complete(guests[g])
      ensures Valid() && vcpu == alone == guests && current == 0
    {
      frame, banked, cop, vmpidr := guests[0].frame, guests[0].banked, guests[0].cop, guests[0].vmpidr;
      vcpu, alone, current := guests, guests, 0;
    }

    method SaveBanked() returns (b: Banked)
      ensures b == banked
    {
      b := Banked(banked.spUsr,
                  banked.spsrSvc, banked.spSvc, banked.lrSvc,
                  banked.spsrAbt, banked.spAbt, banked.lrAbt,
                  banked.spsrUnd, banked.spUnd, banked.lrUnd,
                  banked.spsrIrq, banked.spIrq, banked.lrIrq,
                  banked.spsrFiq, banked.lrFiq, banked.r8Fiq, banked.r9Fiq,
                  banked.r10Fiq, banked.r11Fiq, banked.r12Fiq);
    }

    method RestoreBanked(b: Banked)
      modifies this`banked
      ensures banked == b
    {
      banked := banked.(spUsr := b.spUsr);
      banked := banked.(spsrSvc := b.spsrSvc, spSvc := b.spSvc, lrSvc := b.lrSvc);
      banked := banked.(spsrAbt := b.spsrAbt, spAbt := b.spAbt, lrAbt := b.lrAbt);
      banked := banked.(spsrUnd := b.spsrUnd, spUnd := b.spUnd, lrUnd := b.lrUnd);
      banked := banked.(spsrIrq := b.spsrIrq, spIrq := b.spIrq, lrIrq := b.lrIrq);
      banked := banked.(spsrFiq := b.spsrFiq, lrFiq := b.lrFiq, r8Fiq := b.r8Fiq, r9Fiq := b.r9Fiq);
      banked := banked.(r10Fiq := b.r10Fiq, r11Fiq := b.r11Fiq, r12Fiq := b.r12Fiq);
    }

    method SaveCops() returns (c: Cop)
      ensures c == cop
    {
      c := Cop(cop.vbar, cop.ttbr0, cop.ttbr1, cop.ttbcr, cop.sctlr);
    }

    method RestoreCops(c: Cop)
      modifies this`cop
      ensures cop == c
    {
      cop := cop.(vbar := c.vbar);
      cop := cop.(ttbr0 := c.ttbr0, ttbr1 := c.ttbr1, ttbcr := c.ttbcr);
      cop := cop.(sctlr := c.sctlr);
    }

    method Save(g: nat)
      requires g < |vcpu| && |frame.gpr| == GPRS
      modifies this`vcpu
      ensures vcpu == old(vcpu)[g := Live()]
    {
      var f := CopyRegs(frame);
      var c := SaveCops();
      var b := SaveBanked();
      vcpu := vcpu[g := Registers(f, b, c, vmpidr)];
    }

    method Restore(g: nat)
      requires g < |vcpu| && Complete(vcpu[g])
      modifies this`frame, this`banked, this`cop, this`vmpidr
      ensures Live() == vcpu[g]
    {
      vmpidr := vcpu[g].vmpidr;
      frame := CopyRegs(vcpu[g].frame);
      RestoreCops(vcpu[g].cop);
      RestoreBanked(vcpu[g].banked);
    }

    /** A switch: no guest's registers change. */
    method SaveAndRestore(to: nat)
      requires Valid() && to < |vcpu|
      modifies this`frame, this`banked, this`cop, this`vmpidr, this`vcpu, this`current
      ensures Valid() && current == to
      ensures Abstract() == Step(old(Abstract()), Switch(to))
    {
      assert Complete(alone[current]) && View(Abstract(), current) == alone[current];
      if current != to {
        assert View(Abstract(), to) == alone[to];
        Save(current);
        current := to;
        Restore(to);
      }
    }

    /** The running guest's own steps until the next trap. */
    method Guest(f: Registers -> Registers)
      requires Valid() && GuestStep(f)
      modifies this`frame, this`banked, this`cop, this`vmpidr, this`alone
      ensures Valid() && alone == old(alone)[current := f(old(alone)[current])]
      ensures Abstract() == Step(old(Abstract()), Run(f))
    {
      var before := Registers(frame, banked, cop, vmpidr);
      assert View(Abstract(), current) == alone[current];
      var after := f(before);
      frame, banked, cop, vmpidr := after.frame, after.banked, after.cop, after.vmpidr;
      alone := alone[current := f(alone[current])];
    }

    /**
     * The copy of a waiting guest that the monitor is given, made over `dst`: frame and banked registers are those of
     * the guest's own steps, except that `lr_und` shows `sp_und`; system and identification registers are not copied.
     * So the copied registers are the guest's exactly when it has the same value in both.
     */
    method GuestMove(dst: Registers, g: nat) returns (r: Registers)
      requires Valid() && g < |vcpu| && g != current
      ensures r.frame == alone[g].frame && r.banked == alone[g].banked.(lrUnd := alone[g].banked.spUnd)
      ensures r.cop == dst.cop && r.vmpidr == dst.vmpidr
      ensures r.frame == alone[g].frame && r.banked == alone[g].banked
        <==> alone[g].banked.lrUnd == alone[g].banked.spUnd
    {
      assert View(Abstract(), g) == alone[g] && Complete(vcpu[g]);
      var f := CopyRegs(vcpu[g].frame);
      var b := CopyBanked(dst.banked, vcpu[g].banked);
      assert b.lrUnd == vcpu[g].banked.spUnd;
      r := dst.(frame := f, banked := b);
    }
  }

  /** Register by register; the undefined-mode link register is taken from the stack pointer of that mode. */
  method CopyBanked(dst: Banked, src: Banked) returns (b: Banked)
    ensures b == src.(lrUnd := src.spUnd)
  {
    b := dst;
    b := b.(spUsr := src.spUsr);
    b := b.(spsrSvc := src.spsrSvc);
    b := b.(spSvc := src.spSvc);
    b := b.(lrSvc := src.lrSvc);
    b := b.(spsrAbt := src.spsrAbt);
    b := b.(spAbt := src.spAbt);
    b := b.(lrAbt := src.lrAbt);
    b := b.(spsrUnd := src.spsrUnd);
    b := b.(spUnd := src.spUnd);
    b := b.(lrUnd := src.spUnd);
    b := b.(spsrIrq := src.spsrIrq);
    b := b.(spIrq := src.spIrq);
    b := b.(lrIrq := src.lrIrq);
    b := b.(spsrFiq := src.spsrFiq);
    b := b.(lrFiq := src.lrFiq);
    b := b.(r8Fiq := src.r8Fiq);
    b := b.(r9Fiq := src.r9Fiq);
    b := b.(r10Fiq := src.r10Fiq);
    b := b.(r11Fiq := src.r11Fiq);
    b := b.(r12Fiq := src.r12Fiq);
  }
}
