/** The M-mode trap handler over the CLINT and the CSRs of the harts, updated in place. Each call is tied to the
    register writes of the interrupt protocol, made one after another without interference. */
module MTrap {
  import opened Words
  import opened Interrupts

  const NUM_HARTS: nat := 2

  const IRQ_M_SOFT: Word := 3
  const IRQ_M_TIMER: Word := 7
  const CAUSE_ECALL_SMODE: Word := 9
  const SBI_SET_TIMER: Word := 0
  const SBI_SEND_IPI: Word := 1
  const SBI_CLEAR_IPI: Word := 2
  const INTERRUPT_BIT: nat := 0x8000_0000_0000_0000

  /** The CSR state of one hart that the handler writes; `spp` is mstatus.SPP. */
  datatype Csrs = Csrs(
    mtie: bool, stip: bool, ssip: bool, scause: Word, sepc: Word, stval: Word, spp: bool, stvec: Word)

  datatype Outcome = Resume(pc: Word) | Panic(mcause: Word, mepc: Word, mtval: Word)

  /** What a trap asks for: a chain of register writes, a reflected ecall, or nothing the handler knows. */
  datatype Request = Chain(first: MPoint, skip: nat) | Reflect | Unknown

  function DecodeEcall(a7: Word, a0: Word): Request {
    if a7 == SBI_SET_TIMER then Chain(SetCompare(a0), 4)
    else if a7 == SBI_SEND_IPI then Chain(Ring(a0), 4)
    else if a7 == SBI_CLEAR_IPI then Chain(Unpend, 4)
    else Reflect
  }

  function Decode(mcause: Word, a7: Word, a0: Word): Request {
    if mcause >= INTERRUPT_BIT then
      if mcause - INTERRUPT_BIT == IRQ_M_TIMER then Chain(TimerMask, 0)
      else if mcause - INTERRUPT_BIT == IRQ_M_SOFT then Chain(SoftQuiet, 0)
      else Unknown
    else if mcause != CAUSE_ECALL_SMODE then Unknown
    else DecodeEcall(a7, a0)
  }

  function Left(m: MPoint): nat {
    match m
    case Off => 0
    case TimerMask => 3
    case TimerQuiet => 2
    case SoftQuiet => 2
    case SetCompare(_) => 3
    case SetClear => 2
    case _ => 1
  }

  /** The rest of the handler's register writes, with nothing in between. */
  function Finish(rs: seq<Regs>, h: nat, m: MPoint): (r: seq<Regs>)
    requires h < |rs|
    ensures |r| == |rs|
    decreases Left(m)
  {
    if m == Off then rs else Finish(MWrite(rs, h, m), h, MNext(m))
  }

  /** A call of the handler is what the step-by-step protocol reaches by that hart's writes alone. */
  lemma {:induction false} FinishIsARun(s: State, h: nat, n: nat)
    requires Shaped(s) && h < |s.harts| && n == Left(s.harts[h].m)
    ensures var es := seq(n, i => Write(h));
      Runs(s, es) && Run(s, es).regs == Finish(s.regs, h, s.harts[h].m) && Run(s, es).harts[h].m == Off
    decreases n
  {
    var es := seq(n, i => Write(h));
    if n > 0 {
      assert es[1..] == seq(n - 1, i => Write(h));
      FinishIsARun(Step(s, Write(h)), h, n - 1);
    }
  }

  /** The platform as the boot code leaves it, with both harts in S-mode code, is a start of the protocol. */
  lemma BootStarts(compare: seq<Word>, harts: seq<Hart>, mtime: Word)
    requires |compare| == |harts| == NUM_HARTS
    requires forall h | 0 <= h < NUM_HARTS ::
               harts[h] == Hart(Off, Code, false, false, false, 0, 0, 0, compare[h], 0, 0, 0, 0)
    ensures Starts(State(
      mtime, seq(NUM_HARTS, h requires 0 <= h < NUM_HARTS => Regs(compare[h], false, true, false, false)), harts))
  {
  }

  class Platform {
    const mtimecmp: array<Word>
    const msip: array<bool>
    const csrs: array<Csrs>

    ghost predicate Valid()
      reads this
    {
      mtimecmp.Length == NUM_HARTS && msip.Length == NUM_HARTS && csrs.Length == NUM_HARTS
    }

    ghost function View(): (rs: seq<Regs>)
      requires Valid()
      reads this, mtimecmp, msip, csrs
      ensures |rs| == NUM_HARTS
    {
      seq(NUM_HARTS, h requires 0 <= h < NUM_HARTS reads mtimecmp, msip, csrs =>
        Regs(mtimecmp[h], msip[h], csrs[h].mtie, csrs[h].stip, csrs[h].ssip))
    }

    /** Boot: M-mode soft and timer interrupts on, nothing pending, and mtimecmp as the platform left it. */
    constructor (compare: seq<Word>, stvec: Word)
      requires |compare| == NUM_HARTS
      ensures Valid() && fresh(mtimecmp) && fresh(msip) && fresh(csrs)
      ensures View() == seq(NUM_HARTS, h requires 0 <= h < NUM_HARTS => Regs(compare[h], false, true, false, false))
      ensures forall h | 0 <= h < NUM_HARTS :: csrs[h].stvec == stvec
    {
      mtimecmp := new Word[NUM_HARTS](i requires 0 <= i < NUM_HARTS => compare[i]);
      msip := new bool[NUM_HARTS](_ => false);
      csrs := new Csrs[NUM_HARTS](_ => Csrs(true, false, false, 0, 0, 0, false, stvec));
    }

    /** The S-mode trap registers of every hart. */
    ghost predicate TrapRegistersKept(was: seq<Csrs>)
      requires Valid() && |was| == NUM_HARTS
      reads this, csrs
    {
      forall h | 0 <= h < NUM_HARTS ::
        csrs[h] == was[h].(mtie := csrs[h].mtie, stip := csrs[h].stip, ssip := csrs[h].ssip)
    }

    method MTimer(hart: nat)
      requires Valid() && hart < NUM_HARTS
      modifies mtimecmp, csrs
      ensures View() == Finish(old(View()), hart, TimerMask) && TrapRegistersKept(old(csrs[..]))
      ensures mtimecmp[..] == old(mtimecmp[..])[hart := MAX]
      ensures csrs[..] == old(csrs[..])[hart := old(csrs[hart]).(mtie := false, stip := true)]
    {
      csrs[hart] := csrs[hart].(mtie := false);
      assert View() == MWrite(old(View()), hart, TimerMask);
      mtimecmp[hart] := MAX;
      ghost var quiet := View();
      assert quiet == MWrite(MWrite(old(View()), hart, TimerMask), hart, TimerQuiet);
      csrs[hart] := csrs[hart].(stip := true);
      assert View() == MWrite(quiet, hart, TimerPend);
    }

    method MSoft(hart: nat)
      requires Valid() && hart < NUM_HARTS
      modifies msip, csrs
      ensures View() == Finish(old(View()), hart, SoftQuiet) && TrapRegistersKept(old(csrs[..]))
      ensures msip[..] == old(msip[..])[hart := false]
      ensures csrs[..] == old(csrs[..])[hart := old(csrs[hart]).(ssip := true)]
    {
      msip[hart] := false;
      ghost var quiet := View();
      assert quiet == MWrite(old(View()), hart, SoftQuiet);
      csrs[hart] := csrs[hart].(ssip := true);
      assert View() == MWrite(quiet, hart, SoftPend);
    }

    method SetTimer(hart: nat, t: Word)
      requires Valid() && hart < NUM_HARTS
      modifies mtimecmp, csrs
      ensures View() == Finish(old(View()), hart, SetCompare(t)) && TrapRegistersKept(old(csrs[..]))
      ensures mtimecmp[..] == old(mtimecmp[..])[hart := t]
      ensures csrs[..] == old(csrs[..])[hart := old(csrs[hart]).(stip := false, mtie := true)]
    {
      mtimecmp[hart] := t;
      assert View() == MWrite(old(View()), hart, SetCompare(t));
      csrs[hart] := csrs[hart].(stip := false);
      ghost var clear := View();
      assert clear == MWrite(MWrite(old(View()), hart, SetCompare(t)), hart, SetClear);
      csrs[hart] := csrs[hart].(mtie := true);
      assert View() == MWrite(clear, hart, SetEnable);
    }

    method SendIpi(hart: nat, target: Word)
      requires Valid() && hart < NUM_HARTS
      modifies msip
      ensures View() == Finish(old(View()), hart, Ring(target))
      ensures msip[..] == if target < NUM_HARTS then old(msip[..])[target := true] else old(msip[..])
    {
      if target < NUM_HARTS {
        msip[target] := true;
      }
      assert View() == MWrite(old(View()), hart, Ring(target));
    }

    method ClearIpi(hart: nat)
      requires Valid() && hart < NUM_HARTS
      modifies csrs
      ensures View() == Finish(old(View()), hart, Unpend) && TrapRegistersKept(old(csrs[..]))
      ensures csrs[..] == old(csrs[..])[hart := old(csrs[hart]).(ssip := false)]
    {
      csrs[hart] := csrs[hart].(ssip := false);
      assert View() == MWrite(old(View()), hart, Unpend);
    }

    /** An ecall the handler does not know, handed to the S-mode trap vector. */
    method ReflectEcall(hart: nat, mepc: Word) returns (pc: Word)
      requires Valid() && hart < NUM_HARTS
      modifies csrs
      ensures View() == old(View())
      ensures csrs[..] == old(csrs[..])[hart :=
                old(csrs[hart]).(scause := CAUSE_ECALL_SMODE, sepc := mepc, stval := 0, spp := true)]
      ensures pc == old(csrs[hart]).stvec - old(csrs[hart]).stvec % 4
    {
      csrs[hart] := csrs[hart].(scause := CAUSE_ECALL_SMODE);
      csrs[hart] := csrs[hart].(sepc := mepc);
      csrs[hart] := csrs[hart].(stval := 0);
      var stvec := csrs[hart].stvec;
      csrs[hart] := csrs[hart].(spp := true);
      pc := stvec - stvec % 4;
    }

    /** What an answered request leaves behind. */
    twostate predicate Answered(hart: nat, q: Request, mepc: Word, pc: Word)
      requires old(Valid()) && Valid() && hart < NUM_HARTS && !q.Unknown?
      reads this, mtimecmp, msip, csrs
    {
      if q.Chain? then
        View() == Finish(old(View()), hart, q.first) && TrapRegistersKept(old(csrs[..])) && pc == Plus(mepc, q.skip)
      else
        && View() == old(View())
        && csrs[..] == old(csrs[..])[hart :=
             old(csrs[hart]).(scause := CAUSE_ECALL_SMODE, sepc := mepc, stval := 0, spp := true)]
        && pc == old(csrs[hart]).stvec - old(csrs[hart]).stvec % 4
    }

    method Ecall(hart: nat, mepc: Word, a7: Word, a0: Word) returns (pc: Word)
      requires Valid() && hart < NUM_HARTS
      modifies mtimecmp, msip, csrs
      ensures Answered(hart, DecodeEcall(a7, a0), mepc, pc)
      ensures a7 == 0 ==>
                && mtimecmp[..] == old(mtimecmp[..])[hart := a0] && msip[..] == old(msip[..])
                && csrs[..] == old(csrs[..])[hart := old(csrs[hart]).(stip := false, mtie := true)]
                && pc == Plus(mepc, 4)
      ensures a7 == 1 ==>
                && msip[..] == (if a0 < 2 then old(msip[..])[a0 := true] else old(msip[..]))
                && mtimecmp[..] == old(mtimecmp[..]) && csrs[..] == old(csrs[..]) && pc == Plus(mepc, 4)
      ensures a7 == 2 ==>
                && csrs[..] == old(csrs[..])[hart := old(csrs[hart]).(ssip := false)]
                && mtimecmp[..] == old(mtimecmp[..]) && msip[..] == old(msip[..]) && pc == Plus(mepc, 4)
      ensures a7 > 2 ==>
                && csrs[..] == old(csrs[..])[hart :=
                     old(csrs[hart]).(scause := 9, sepc := mepc, stval := 0, spp := true)]
                && mtimecmp[..] == old(mtimecmp[..]) && msip[..] == old(msip[..])
                && pc == old(csrs[hart]).stvec - old(csrs[hart]).stvec % 4
    {
      pc := Plus(mepc, 4);
      if a7 == SBI_SET_TIMER {
        SetTimer(hart, a0);
      } else if a7 == SBI_SEND_IPI {
        SendIpi(hart, a0);
      } else if a7 == SBI_CLEAR_IPI {
        ClearIpi(hart);
      } else {
        pc := ReflectEcall(hart, mepc);
      }
    }

    /** m_trap_handler: the address to resume at, or a panic that has changed nothing. */
    method MTrapHandler(hart: nat, mcause: Word, mepc: Word, mtval: Word, a7: Word, a0: Word) returns (out: Outcome)
      requires Valid() && hart < NUM_HARTS
      modifies mtimecmp, msip, csrs
      ensures var q := Decode(mcause, a7, a0);
        if q.Unknown? then View() == old(View()) && csrs[..] == old(csrs[..]) && out == Panic(mcause, mepc, mtval)
        else out.Resume? && Answered(hart, q, mepc, out.pc)
      ensures mcause == 9 && a7 == 0 ==>
                && mtimecmp[..] == old(mtimecmp[..])[hart := a0] && msip[..] == old(msip[..])
                && csrs[..] == old(csrs[..])[hart := old(csrs[hart]).(stip := false, mtie := true)]
                && out == Resume(Plus(mepc, 4))
      ensures mcause == 9 && a7 == 1 ==>
                && msip[..] == (if a0 < 2 then old(msip[..])[a0 := true] else old(msip[..]))
                && mtimecmp[..] == old(mtimecmp[..]) && csrs[..] == old(csrs[..]) && out == Resume(Plus(mepc, 4))
      ensures mcause == 9 && a7 == 2 ==>
                && csrs[..] == old(csrs[..])[hart := old(csrs[hart]).(ssip := false)]
                && mtimecmp[..] == old(mtimecmp[..]) && msip[..] == old(msip[..]) && out == Resume(Plus(mepc, 4))
      ensures mcause == 9 && a7 > 2 ==>
                && csrs[..] == old(csrs[..])[hart :=
                     old(csrs[hart]).(scause := 9, sepc := mepc, stval := 0, spp := true)]
                && mtimecmp[..] == old(mtimecmp[..]) && msip[..] == old(msip[..])
                && out == Resume(old(csrs[hart]).stvec - old(csrs[hart]).stvec % 4)
      ensures mcause == 0x8000_0000_0000_0007 ==>
                && mtimecmp[..] == old(mtimecmp[..])[hart := 0xFFFF_FFFF_FFFF_FFFF] && msip[..] == old(msip[..])
                && csrs[..] == old(csrs[..])[hart := old(csrs[hart]).(mtie := false, stip := true)]
                && out == Resume(mepc)
      ensures mcause == 0x8000_0000_0000_0003 ==>
                && msip[..] == old(msip[..])[hart := false] && mtimecmp[..] == old(mtimecmp[..])
                && csrs[..] == old(csrs[..])[hart := old(csrs[hart]).(ssip := true)]
                && out == Resume(mepc)
      ensures mcause != 9 && mcause != 0x8000_0000_0000_0007 && mcause != 0x8000_0000_0000_0003 ==>
                && mtimecmp[..] == old(mtimecmp[..]) && msip[..] == old(msip[..]) && csrs[..] == old(csrs[..])
                && out == Panic(mcause, mepc, mtval)
    {
      var interrupt := mcause / INTERRUPT_BIT % 2 == 1;
      var code := mcause % INTERRUPT_BIT;
      if interrupt {
        if code == IRQ_M_TIMER {
          MTimer(hart);
          return Resume(mepc);
        } else if code == IRQ_M_SOFT {
          MSoft(hart);
          return Resume(mepc);
        }
        return Panic(mcause, mepc, mtval);
      }
      if code != CAUSE_ECALL_SMODE {
        return Panic(mcause, mepc, mtval);
      }
      var pc := Ecall(hart, mepc, a7, a0);
      return Resume(pc);
    }
  }
}
