/** Timer and inter-processor interrupts forwarded from M-mode to S-mode (section 3.1.9 of the Privileged
    Architecture v1.12): the M-mode handler's register writes one at a time, the S-mode handler, and S-mode code that
    masks, arms, sends and clears as it likes, on any number of harts whose steps interleave. */
module Interrupts {
  import opened Words

  const MAX: Word := 0xFFFF_FFFF_FFFF_FFFF

  /** A hart's CLINT words and the bits of its mie and mip that the handlers write. */
  datatype Regs = Regs(mtimecmp: Word, msip: bool, mtie: bool, stip: bool, ssip: bool)

  /** Where the M-mode handler stands, by what it has still to write. */
  datatype MPoint =
    | Off
    | TimerMask | TimerQuiet | TimerPend         // IRQ_M_TIMER: mie.MTIE = 0; mtimecmp = max; mip.STIP = 1
    | SoftQuiet | SoftPend                       // IRQ_M_SOFT: msip = 0; mip.SSIP = 1
    | SetCompare(t: Word) | SetClear | SetEnable // SBI_SET_TIMER: mtimecmp = t; mip.STIP = 0; mie.MTIE = 1
    | Ring(target: Word)                         // SBI_SEND_IPI: msip[target] = 1, for a target in range
    | Unpend                                     // SBI_CLEAR_IPI: mip.SSIP = 0

  function MNext(m: MPoint): MPoint {
    match m
    case TimerMask => TimerQuiet
    case TimerQuiet => TimerPend
    case SoftQuiet => SoftPend
    case SetCompare(_) => SetClear
    case SetClear => SetEnable
    case _ => Off
  }

  /** A hart's own registers after the write. */
  function Written(r: Regs, m: MPoint): Regs {
    match m
    case TimerMask => r.(mtie := false)
    case TimerQuiet => r.(mtimecmp := MAX)
    case TimerPend => r.(stip := true)
    case SoftQuiet => r.(msip := false)
    case SoftPend => r.(ssip := true)
    case SetCompare(t) => r.(mtimecmp := t)
    case SetClear => r.(stip := false)
    case SetEnable => r.(mtie := true)
    case Unpend => r.(ssip := false)
    case _ => r
  }

  function MWrite(rs: seq<Regs>, h: nat, m: MPoint): (w: seq<Regs>)
    requires h < |rs|
    ensures |w| == |rs|
  {
    if !m.Ring? then rs[h := Written(rs[h], m)]
    else if m.target < |rs| then rs[m.target := rs[m.target].(msip := true)]
    else rs
  }

  /** S-mode: ordinary code, or its handler: entered for a timer or soft interrupt, or about to return. */
  datatype SPoint = Code | TimerTrap | SoftTrap | Leaving

  /** A hart's control state, its S-mode masks, and its history: set_timer calls, calls superseded by a later one,
      S-timer interrupts delivered, the time last armed; IPIs sent to it, sends merged into one already on its way,
      SSIPs cleared unread, S-soft interrupts delivered. */
  datatype Hart = Hart(
    m: MPoint, s: SPoint, sie: bool, stie: bool, ssie: bool,
    calls: nat, superseded: nat, delivered: nat, armed: Word,
    sends: nat, merged: nat, cleared: nat, taken: nat)

  datatype State = State(mtime: Word, regs: seq<Regs>, harts: seq<Hart>)

  datatype Event =
    | Tick(t: Word)
    | Write(h: nat)                    // the M-mode handler's next register write; the last one returns
    | TakeMTimer(h: nat)
    | TakeMSoft(h: nat)
    | SetTimer(h: nat, t: Word)        // sbi_set_timer, sbi_send_ipi, sbi_clear_ipi from S-mode code
    | SendIpi(h: nat, target: Word)
    | ClearIpi(h: nat)
    | ClearSsip(h: nat)                // csrc sip, SSIP from S-mode code
    | Masks(h: nat, sie: bool, stie: bool, ssie: bool)
    | TakeSTimer(h: nat)
    | TakeSSoft(h: nat)
    | Handle(h: nat)                   // the S-mode handler's next step

  predicate Shaped(s: State) { |s.regs| == |s.harts| }

  predicate InS(s: State, h: nat) { h < |s.harts| && s.harts[h].m == Off }

  predicate InCode(s: State, h: nat) { InS(s, h) && s.harts[h].s == Code }

  predicate Possible(s: State, e: Event)
    requires Shaped(s)
  {
    match e
    case Tick(t) => s.mtime <= t
    case Write(h) => h < |s.harts| && s.harts[h].m != Off
    case TakeMTimer(h) => InS(s, h) && s.regs[h].mtie && s.regs[h].mtimecmp <= s.mtime
    case TakeMSoft(h) => InS(s, h) && s.regs[h].msip
    case TakeSTimer(h) => InCode(s, h) && s.harts[h].sie && s.harts[h].stie && s.regs[h].stip
    case TakeSSoft(h) => InCode(s, h) && s.harts[h].sie && s.harts[h].ssie && s.regs[h].ssip
    case Handle(h) => InS(s, h) && s.harts[h].s != Code
    case _ => InCode(s, e.h)
  }

  /** An armed timer, on its way through M-mode or pending in S-mode and not yet delivered. */
  predicate InFlight(r: Regs, x: Hart) {
    match x.m
    case TimerMask => true
    case TimerQuiet => true
    case TimerPend => true
    case SetCompare(_) => true
    case SetClear => true
    case SetEnable => true
    case _ => r.mtie || (r.stip && x.s != TimerTrap)
  }

  function One(b: bool): nat { if b then 1 else 0 }

  function Arm(r: Regs, x: Hart, t: Word): Hart {
    x.(m := SetCompare(t), calls := x.calls + 1, superseded := x.superseded + One(InFlight(r, x)), armed := t)
  }

  /** The writing hart after the write, and the hart that an IPI is sent to. */
  function Logged(r: Regs, x: Hart): Hart {
    x.(m := MNext(x.m),
       merged := x.merged + One(x.m == SoftPend && r.ssip),
       cleared := x.cleared + One(x.m == Unpend && r.ssip))
  }

  function Sent(r: Regs, x: Hart): Hart { x.(sends := x.sends + 1, merged := x.merged + One(r.msip)) }

  function Recorded(s: State, h: nat): (hs: seq<Hart>)
    requires Shaped(s) && h < |s.harts|
    ensures |hs| == |s.harts|
  {
    var m := s.harts[h].m;
    var hs := s.harts[h := Logged(s.regs[h], s.harts[h])];
    if m.Ring? && m.target < |hs| then hs[m.target := Sent(s.regs[m.target], hs[m.target])] else hs
  }

  /** The hart after any other event of its own. */
  function Acted(r: Regs, x: Hart, e: Event): Hart {
    match e
    case TakeMTimer(_) => x.(m := TimerMask)
    case TakeMSoft(_) => x.(m := SoftQuiet)
    case SetTimer(_, t) => Arm(r, x, t)
    case SendIpi(_, target) => x.(m := Ring(target))
    case ClearIpi(_) => x.(m := Unpend)
    case ClearSsip(_) => x.(cleared := x.cleared + One(r.ssip))
    case Masks(_, sie, stie, ssie) => x.(sie := sie, stie := stie, ssie := ssie)
    case TakeSTimer(_) => x.(s := TimerTrap, sie := false, delivered := x.delivered + 1)
    case TakeSSoft(_) => x.(s := SoftTrap, sie := false, taken := x.taken + 1)
    case Handle(_) =>
      (match x.s
       case TimerTrap => Arm(r, x, MAX).(s := Leaving)     // sbi_set_timer(max)
       case SoftTrap => x.(s := Leaving)                   // csrc sip, SSIP
       case _ => x.(s := Code, sie := true))               // sret
    case _ => x
  }

  function Unpended(r: Regs, x: Hart, e: Event): Regs {
    if e.ClearSsip? || (e.Handle? && x.s == SoftTrap) then r.(ssip := false) else r
  }

  function Step(s: State, e: Event): (t: State)
    requires Shaped(s) && Possible(s, e)
    ensures Shaped(t) && |t.harts| == |s.harts|
  {
    match e
    case Tick(t) => State(t, s.regs, s.harts)
    case Write(h) => State(s.mtime, MWrite(s.regs, h, s.harts[h].m), Recorded(s, h))
    case _ =>
      var r, x := s.regs[e.h], s.harts[e.h];
      State(s.mtime, s.regs[e.h := Unpended(r, x, e)], s.harts[e.h := Acted(r, x, e)])
  }

  predicate Runs(s: State, es: seq<Event>)
    requires Shaped(s)
    decreases |es|
  {
    es == [] || (Possible(s, es[0]) && Runs(Step(s, es[0]), es[1..]))
  }

  function Run(s: State, es: seq<Event>): (t: State)
    requires Shaped(s) && Runs(s, es)
    ensures Shaped(t) && |t.harts| == |s.harts|
    decreases |es|
  {
    if es == [] then s else Run(Step(s, es[0]), es[1..])
  }

  /** Boot: nothing pending, nothing counted; MTIE and mtimecmp are as the boot code and the platform left them. */
  predicate Starts(s: State) {
    Shaped(s) && forall h | 0 <= h < |s.harts| :: StartsHart(s.regs[h], s.harts[h])
  }

  predicate StartsHart(r: Regs, x: Hart) {
    && !r.msip && !r.stip && !r.ssip
    && x.m == Off && x.s == Code && x.armed == r.mtimecmp
    && x.calls == x.superseded == x.delivered == x.sends == x.merged == x.cleared == x.taken == 0
  }

  // ---- Invariants of one hart ----

  /** A pending STIP means a silenced machine timer, except in the course of set_timer, which rearms it. */
  predicate TimerOk(mtime: Word, r: Regs, x: Hart) {
    && (r.stip && x.m != SetClear ==> r.mtimecmp == MAX)
    && (r.stip ==> !r.mtie)
    && (x.s == TimerTrap ==> r.stip && (x.m == Off || x.m == SoftQuiet || x.m == SoftPend))
    && (match x.m
        case TimerMask => r.mtie && !r.stip && x.armed <= mtime
        case TimerQuiet => !r.mtie && !r.stip && x.armed <= mtime
        case TimerPend => !r.mtie && !r.stip && x.armed <= mtime && r.mtimecmp == MAX
        case SetCompare(t) => t == x.armed
        case SetClear => r.mtimecmp == x.armed
        case SetEnable => r.mtimecmp == x.armed && !r.stip
        case _ => (r.mtie ==> r.mtimecmp == x.armed) && (r.stip ==> x.armed <= mtime))
  }

  function TimerBalance(r: Regs, x: Hart): int { x.calls - x.delivered - x.superseded - One(InFlight(r, x)) }

  /** IPIs on their way to a hart: in MSIP, in the M-mode handler, or in SSIP and not yet delivered. */
  function Tokens(r: Regs, x: Hart): nat {
    One(r.msip) + One(x.m == SoftPend) + One(r.ssip && x.s != SoftTrap)
  }

  predicate SoftOk(r: Regs, x: Hart) {
    && (x.m == SoftQuiet ==> r.msip)
    && (x.s == SoftTrap ==> r.ssip && x.m != Unpend)
    && (x.m == Unpend ==> x.s == Code)
  }

  function SoftBalance(r: Regs, x: Hart): int { x.sends - x.taken - x.merged - x.cleared - Tokens(r, x) }

  predicate Ok(mtime: Word, r: Regs, x: Hart) { TimerOk(mtime, r, x) && SoftOk(r, x) }

  predicate SameBalance(r: Regs, x: Hart, r': Regs, x': Hart) {
    TimerBalance(r', x') == TimerBalance(r, x) && SoftBalance(r', x') == SoftBalance(r, x)
  }

  lemma WriteKeeps(mtime: Word, r: Regs, x: Hart)
    requires Ok(mtime, r, x) && x.m != Off
    ensures Ok(mtime, Written(r, x.m), Logged(r, x)) && SameBalance(r, x, Written(r, x.m), Logged(r, x))
  {
  }

  lemma RingKeeps(mtime: Word, r: Regs, x: Hart)
    requires Ok(mtime, r, x)
    ensures Ok(mtime, r.(msip := true), Sent(r, x)) && SameBalance(r, x, r.(msip := true), Sent(r, x))
  {
  }

  lemma ActKeeps(s: State, e: Event)
    requires Shaped(s) && Possible(s, e) && !e.Tick? && !e.Write?
    requires Ok(s.mtime, s.regs[e.h], s.harts[e.h])
    ensures var r, x := s.regs[e.h], s.harts[e.h];
      Ok(s.mtime, Unpended(r, x, e), Acted(r, x, e)) && SameBalance(r, x, Unpended(r, x, e), Acted(r, x, e))
  {
  }

  predicate HartOk(s: State, h: nat)
    requires Shaped(s) && h < |s.harts|
  {
    Ok(s.mtime, s.regs[h], s.harts[h])
  }

  predicate Invariant(s: State) {
    Shaped(s) && forall h | 0 <= h < |s.harts| :: HartOk(s, h)
  }

  ghost predicate Balanced(s: State, t: State, h: nat)
    requires Shaped(s) && Shaped(t) && h < |s.harts| == |t.harts|
  {
    SameBalance(s.regs[h], s.harts[h], t.regs[h], t.harts[h])
  }

  /** A write reaches its own hart, and the target of an IPI. */
  lemma WriteReaches(s: State, g: nat, h: nat)
    requires Invariant(s) && Possible(s, Write(g)) && h < |s.harts|
    ensures HartOk(Step(s, Write(g)), h) && Balanced(s, Step(s, Write(g)), h)
  {
    var r, x := s.regs[h], s.harts[h];
    var m := s.harts[g].m;
    assert HartOk(s, h);
    if h == g { WriteKeeps(s.mtime, r, x); }
    if m.Ring? && h == m.target { RingKeeps(s.mtime, r, if h == g then Logged(r, x) else x); }
    RegsReached(s, g, h);
  }

  lemma RegsReached(s: State, g: nat, h: nat)
    requires Shaped(s) && Possible(s, Write(g)) && h < |s.harts|
    ensures var t := Step(s, Write(g)); var m := s.harts[g].m;
      var r := if h == g then Written(s.regs[h], m) else s.regs[h];
      var x := if h == g then Logged(s.regs[h], s.harts[h]) else s.harts[h];
      && t.regs[h] == (if m.Ring? && h == m.target then r.(msip := true) else r)
      && t.harts[h] == (if m.Ring? && h == m.target then Sent(r, x) else x)
  {
  }

  lemma HartKept(s: State, e: Event, h: nat)
    requires Invariant(s) && Possible(s, e) && h < |s.harts|
    ensures HartOk(Step(s, e), h) && Balanced(s, Step(s, e), h)
  {
    assert HartOk(s, h);
    match e {
      case Tick(_) =>
      case Write(g) => WriteReaches(s, g, h);
      case _ =>
        assert HartOk(s, e.h);
        ActKeeps(s, e);
    }
  }

  lemma StepKeeps(s: State, e: Event)
    requires Invariant(s) && Possible(s, e)
    ensures Invariant(Step(s, e))
    ensures forall h: nat | h < |s.harts| :: Balanced(s, Step(s, e), h)
  {
    forall h: nat | h < |s.harts| ensures HartOk(Step(s, e), h) && Balanced(s, Step(s, e), h) {
      HartKept(s, e, h);
    }
  }

  lemma {:induction false} RunKeeps(s: State, es: seq<Event>)
    requires Invariant(s) && Runs(s, es)
    ensures Invariant(Run(s, es))
    ensures forall h: nat | h < |s.harts| :: Balanced(s, Run(s, es), h)
    decreases |es|
  {
    if es != [] {
      StepKeeps(s, es[0]);
      RunKeeps(Step(s, es[0]), es[1..]);
      forall h: nat | h < |s.harts| ensures Balanced(s, Run(s, es), h) {
        assert Balanced(s, Step(s, es[0]), h);
        assert Balanced(Step(s, es[0]), Run(s, es), h);
      }
    }
  }

  lemma StartsOk(s: State)
    requires Starts(s)
    ensures Invariant(s)
  {
    forall h | 0 <= h < |s.harts| ensures HartOk(s, h) {
      assert StartsHart(s.regs[h], s.harts[h]);
    }
  }

  // ---- The theorems ----

  /** Every set_timer call is delivered once, superseded by a later call, or in flight, and at most one is in flight;
      a machine timer left enabled at boot is one call more. */
  lemma TimerCallsConserved(s: State, es: seq<Event>, h: nat)
    requires Starts(s) && Runs(s, es) && h < |s.harts|
    ensures var x := Run(s, es).harts[h];
      x.calls + One(s.regs[h].mtie) == x.delivered + x.superseded + One(InFlight(Run(s, es).regs[h], x))
  {
    StartsOk(s);
    RunKeeps(s, es);
    assert StartsHart(s.regs[h], s.harts[h]);
    assert Balanced(s, Run(s, es), h);
  }

  /** The M-mode handler's three writes for a timer interrupt. */
  lemma TimerForwarded(s: State, h: nat, es: seq<Event>)
    requires Shaped(s) && h < |s.harts| && s.harts[h].m == TimerMask
    requires Runs(Forwarded(s, h), es)
    ensures Runs(s, [Write(h), Write(h), Write(h)] + es)
    ensures Run(s, [Write(h), Write(h), Write(h)] + es) == Run(Forwarded(s, h), es)
  {
    var s1 := Step(s, Write(h));
    var s2 := Step(s1, Write(h));
    assert Step(s2, Write(h)) == Forwarded(s, h);
    OneThenRest(s2, Write(h), es);
    OneThenRest(s1, Write(h), [Write(h)] + es);
    OneThenRest(s, Write(h), [Write(h)] + ([Write(h)] + es));
    assert [Write(h)] + ([Write(h)] + ([Write(h)] + es)) == [Write(h), Write(h), Write(h)] + es;
  }

  function Forwarded(s: State, h: nat): (t: State)
    requires Shaped(s) && h < |s.harts|
    ensures Shaped(t)
  {
    State(
      s.mtime, s.regs[h := s.regs[h].(mtie := false, mtimecmp := MAX, stip := true)],
      s.harts[h := s.harts[h].(m := Off)])
  }

  /** With MTIE on at boot and mtimecmp already reached, a hart that enables its timer interrupt takes one nobody
      asked for. */
  lemma BootTimerFires(s: State, h: nat)
    requires Starts(s) && h < |s.harts| && s.regs[h].mtie && s.regs[h].mtimecmp <= s.mtime
    ensures var es := [Masks(h, true, true, false), TakeMTimer(h), Write(h), Write(h), Write(h), TakeSTimer(h)];
      Runs(s, es) && Run(s, es).harts[h].delivered == 1 && Run(s, es).harts[h].calls == 0
  {
    assert StartsHart(s.regs[h], s.harts[h]);
    var s1 := Masked(s, h);
    ForwardedIsDelivered(s1, h);
    TimerForwarded(s1, h, [TakeSTimer(h)]);
    var rest := [Write(h), Write(h), Write(h)] + [TakeSTimer(h)];
    OneThenRest(Step(s, Masks(h, true, true, false)), TakeMTimer(h), rest);
    OneThenRest(s, Masks(h, true, true, false), [TakeMTimer(h)] + rest);
    assert [Masks(h, true, true, false)] + ([TakeMTimer(h)] + rest)
        == [Masks(h, true, true, false), TakeMTimer(h), Write(h), Write(h), Write(h), TakeSTimer(h)];
  }

  /** The hart in its M-mode handler for the boot timer, S-timer interrupts enabled. */
  function Masked(s: State, h: nat): (t: State)
    requires Starts(s) && h < |s.harts| && s.regs[h].mtie && s.regs[h].mtimecmp <= s.mtime
    ensures Shaped(t) && t.regs == s.regs && |t.harts| == |s.harts|
    ensures t.harts[h] == s.harts[h].(sie := true, stie := true, ssie := false, m := TimerMask)
  {
    assert StartsHart(s.regs[h], s.harts[h]);
    Step(Step(s, Masks(h, true, true, false)), TakeMTimer(h))
  }

  lemma ForwardedIsDelivered(s: State, h: nat)
    requires Shaped(s) && h < |s.harts| && s.harts[h].s == Code && s.harts[h].sie && s.harts[h].stie
    ensures var t := Forwarded(s, h); var es := [TakeSTimer(h)];
      && Runs(t, es) && Run(t, es).harts[h].delivered == s.harts[h].delivered + 1
      && Run(t, es).harts[h].calls == s.harts[h].calls
  {
    var t := Forwarded(s, h);
    assert Runs(Step(t, TakeSTimer(h)), []);
    OneThenRest(t, TakeSTimer(h), []);
    assert [TakeSTimer(h)] + [] == [TakeSTimer(h)];
  }

  lemma OneThenRest(s: State, e: Event, es: seq<Event>)
    requires Shaped(s) && Possible(s, e) && Runs(Step(s, e), es)
    ensures Runs(s, [e] + es) && Run(s, [e] + es) == Run(Step(s, e), es)
  {
    assert ([e] + es)[1..] == es;
  }

  /** Whenever STIP is pending the machine timer is masked, and its compare word is at the maximum except between
      the first two writes of a set_timer. */
  lemma PendingMeansSilenced(s: State, es: seq<Event>, h: nat)
    requires Starts(s) && Runs(s, es) && h < |s.harts| && Run(s, es).regs[h].stip
    ensures !Run(s, es).regs[h].mtie
    ensures Run(s, es).regs[h].mtimecmp == MAX || Run(s, es).harts[h].m == SetClear
  {
    StartsOk(s);
    RunKeeps(s, es);
    assert HartOk(Run(s, es), h);
  }

  /** No S-timer interrupt is delivered before the time last armed. */
  lemma NeverEarly(s: State, es: seq<Event>, h: nat)
    requires Starts(s) && Runs(s, es) && Possible(Run(s, es), TakeSTimer(h))
    ensures Run(s, es).harts[h].armed <= Run(s, es).mtime
  {
    StartsOk(s);
    RunKeeps(s, es);
    assert HartOk(Run(s, es), h);
  }

  /** Every IPI sent to a hart is delivered, merged into another, cleared unread, or on its way: deliveries never
      exceed sends. */
  lemma IpisConserved(s: State, es: seq<Event>, h: nat)
    requires Starts(s) && Runs(s, es) && h < |s.harts|
    ensures var x := Run(s, es).harts[h];
      x.sends == x.taken + x.merged + x.cleared + Tokens(Run(s, es).regs[h], x)
  {
    StartsOk(s);
    RunKeeps(s, es);
    assert StartsHart(s.regs[h], s.harts[h]);
    assert Balanced(s, Run(s, es), h);
  }

  /** An IPI to hart h is visible in MSIP, in the M-mode handler, or in SSIP. */
  predicate Represented(s: State, h: nat)
    requires Shaped(s) && h < |s.harts|
  {
    s.regs[h].msip || s.harts[h].m == SoftPend || s.regs[h].ssip
  }

  /** The S-mode handler's clear, the park loop's clear and SBI_CLEAR_IPI, on hart h. */
  predicate Clears(s: State, e: Event, h: nat)
    requires Shaped(s) && Possible(s, e)
  {
    || e == ClearSsip(h)
    || (e == Write(h) && s.harts[h].m == Unpend)
    || (e == Handle(h) && s.harts[h].s == SoftTrap)
  }

  predicate NeverClears(s: State, es: seq<Event>, h: nat)
    requires Shaped(s) && Runs(s, es)
    decreases |es|
  {
    es == [] || (!Clears(s, es[0], h) && NeverClears(Step(s, es[0]), es[1..], h))
  }

  lemma {:induction false} RepresentedUntilCleared(s: State, es: seq<Event>, h: nat)
    requires Invariant(s) && Runs(s, es) && h < |s.harts| && NeverClears(s, es, h)
    requires Represented(s, h)
    ensures Represented(Run(s, es), h)
    decreases |es|
  {
    if es != [] {
      assert HartOk(s, h);
      StepKeeps(s, es[0]);
      RepresentedUntilCleared(Step(s, es[0]), es[1..], h);
    }
  }

  /** From the moment an IPI is sent, in every continuation, it stays represented until SSIP is cleared on its hart;
      a target out of range reaches nobody. */
  lemma SentIpiStays(s: State, h: nat, es: seq<Event>)
    requires Invariant(s) && Possible(s, Write(h)) && s.harts[h].m.Ring?
    requires Runs(Step(s, Write(h)), es)
    ensures s.harts[h].m.target < |s.harts| && NeverClears(Step(s, Write(h)), es, s.harts[h].m.target)
        ==> Represented(Run(Step(s, Write(h)), es), s.harts[h].m.target)
    ensures s.harts[h].m.target >= |s.harts| ==> Step(s, Write(h)).regs == s.regs
  {
    var g := s.harts[h].m.target;
    StepKeeps(s, Write(h));
    if g < |s.harts| && NeverClears(Step(s, Write(h)), es, g) {
      RepresentedUntilCleared(Step(s, Write(h)), es, g);
    }
  }

  // ---- After the S-mode handler's call ----

  /** SBI_SET_TIMER's three writes. */
  lemma TimerSet(s: State, h: nat, t: Word, es: seq<Event>)
    requires Shaped(s) && h < |s.harts| && s.harts[h].m == SetCompare(t)
    requires Runs(Rearmed(s, h, t), es)
    ensures Runs(s, [Write(h), Write(h), Write(h)] + es)
    ensures Run(s, [Write(h), Write(h), Write(h)] + es) == Run(Rearmed(s, h, t), es)
  {
    var s1 := Step(s, Write(h));
    var s2 := Step(s1, Write(h));
    assert Step(s2, Write(h)) == Rearmed(s, h, t);
    OneThenRest(s2, Write(h), es);
    OneThenRest(s1, Write(h), [Write(h)] + es);
    OneThenRest(s, Write(h), [Write(h)] + ([Write(h)] + es));
    assert [Write(h)] + ([Write(h)] + ([Write(h)] + es)) == [Write(h), Write(h), Write(h)] + es;
  }

  function Rearmed(s: State, h: nat, t: Word): (u: State)
    requires Shaped(s) && h < |s.harts|
    ensures Shaped(u)
  {
    State(
      s.mtime, s.regs[h := s.regs[h].(mtimecmp := t, stip := false, mtie := true)], s.harts[h := s.harts[h].(m := Off)])
  }

  /** The S-mode timer handler leaves the compare word at the maximum and STIP clear. */
  lemma HandlerSilences(s: State, h: nat)
    requires Shaped(s) && Possible(s, Handle(h)) && s.harts[h].s == TimerTrap
    ensures var es := [Handle(h), Write(h), Write(h), Write(h)];
      && Runs(s, es)
      && Run(s, es).regs[h] == s.regs[h].(mtimecmp := 0xFFFF_FFFF_FFFF_FFFF, stip := false, mtie := true)
      && Run(s, es).harts[h].m == Off && Run(s, es).harts[h].s == Leaving
  {
    var s1 := Step(s, Handle(h));
    TimerSet(s1, h, MAX, []);
    assert [Write(h), Write(h), Write(h)] + [] == [Write(h), Write(h), Write(h)];
    OneThenRest(s, Handle(h), [Write(h), Write(h), Write(h)]);
    assert [Handle(h)] + [Write(h), Write(h), Write(h)] == [Handle(h), Write(h), Write(h), Write(h)];
  }

  /** Set to the maximum, or on the way there. */
  predicate Silent(r: Regs, x: Hart) {
    && x.s != TimerTrap
    && (match x.m
        case TimerMask => false
        case TimerQuiet => false
        case TimerPend => false
        case SetCompare(t) => t == MAX
        case SetClear => r.mtimecmp == MAX
        case _ => r.mtimecmp == MAX && !r.stip)
  }

  lemma SilentStays(s: State, e: Event, h: nat)
    requires Shaped(s) && Possible(s, e) && h < |s.harts| && Silent(s.regs[h], s.harts[h]) && s.mtime < MAX
    requires !(e.SetTimer? && e.h == h)
    ensures var t := Step(s, e);
      Silent(t.regs[h], t.harts[h]) && t.harts[h].delivered == s.harts[h].delivered && s.mtime <= t.mtime
  {
    if e.Write? { RegsReached(s, e.h, h); }
  }

  lemma {:induction false} SilentRun(s: State, es: seq<Event>, h: nat)
    requires Shaped(s) && Runs(s, es) && h < |s.harts| && Silent(s.regs[h], s.harts[h])
    requires Run(s, es).mtime < MAX && forall e | e in es :: !(e.SetTimer? && e.h == h)
    ensures Run(s, es).harts[h].delivered == s.harts[h].delivered && s.mtime <= Run(s, es).mtime
    decreases |es|
  {
    if es != [] {
      TimeGrows(s, es);
      SilentStays(s, es[0], h);
      SilentRun(Step(s, es[0]), es[1..], h);
    }
  }

  lemma {:induction false} TimeGrows(s: State, es: seq<Event>)
    requires Shaped(s) && Runs(s, es)
    ensures s.mtime <= Run(s, es).mtime
    decreases |es|
  {
    if es != [] { TimeGrows(Step(s, es[0]), es[1..]); }
  }

  /** Once the S-mode handler has called set_timer, however the steps interleave, the hart takes no second timer
      interrupt before its own next set_timer, unless mtime reaches the maximum. */
  lemma NoSecondInterrupt(s: State, h: nat, es: seq<Event>)
    requires Shaped(s) && Possible(s, Handle(h)) && s.harts[h].s == TimerTrap && Runs(Step(s, Handle(h)), es)
    requires forall e | e in es :: !(e.SetTimer? && e.h == h)
    requires Run(Step(s, Handle(h)), es).mtime < 0xFFFF_FFFF_FFFF_FFFF
    ensures Run(Step(s, Handle(h)), es).harts[h].delivered == s.harts[h].delivered
  {
    SilentRun(Step(s, Handle(h)), es, h);
  }

  // ---- What is asked for can arrive ----

  /** From S-mode code with the timer interrupt enabled, set_timer for any time is delivered once that time has come. */
  lemma ArmedTimerArrives(s: State, h: nat, t: Word, now: Word)
    requires Shaped(s) && InCode(s, h) && s.harts[h].sie && s.harts[h].stie && t <= now && s.mtime <= now
    ensures var es := [SetTimer(h, t)] + ([Write(h), Write(h), Write(h)] + ([Tick(now)] + ([TakeMTimer(h)]
                      + ([Write(h), Write(h), Write(h)] + [TakeSTimer(h)]))));
      Runs(s, es) && Run(s, es).harts[h].delivered == s.harts[h].delivered + 1
  {
    var s1 := Step(s, SetTimer(h, t));
    var s2 := Rearmed(s1, h, t);
    var s3 := Step(s2, Tick(now));
    var s4 := Step(s3, TakeMTimer(h));
    ForwardedIsDelivered(s4, h);
    TimerForwarded(s4, h, [TakeSTimer(h)]);
    var end := [Write(h), Write(h), Write(h)] + [TakeSTimer(h)];
    OneThenRest(s3, TakeMTimer(h), end);
    OneThenRest(s2, Tick(now), [TakeMTimer(h)] + end);
    TimerSet(s1, h, t, [Tick(now)] + ([TakeMTimer(h)] + end));
    OneThenRest(s, SetTimer(h, t), [Write(h), Write(h), Write(h)] + ([Tick(now)] + ([TakeMTimer(h)] + end)));
  }

  /** The M-mode handler's entry and two writes for a soft interrupt, and the S-mode interrupt behind them. */
  lemma SoftForwarded(s: State, h: nat)
    requires Shaped(s) && InCode(s, h) && s.regs[h].msip && s.harts[h].sie && s.harts[h].ssie
    ensures var es := [TakeMSoft(h), Write(h), Write(h), TakeSSoft(h)];
      Runs(s, es) && Run(s, es).harts[h].taken == s.harts[h].taken + 1
  {
    var s1 := Step(s, TakeMSoft(h));
    var s2 := Step(s1, Write(h));
    var s3 := Step(s2, Write(h));
    assert s3.regs[h].ssip && s3.harts[h].m == Off;
    OneThenRest(s3, TakeSSoft(h), []);
    assert [TakeSSoft(h)] + [] == [TakeSSoft(h)];
    OneThenRest(s2, Write(h), [TakeSSoft(h)]);
    assert [Write(h)] + [TakeSSoft(h)] == [Write(h), TakeSSoft(h)];
    OneThenRest(s1, Write(h), [Write(h), TakeSSoft(h)]);
    assert [Write(h)] + [Write(h), TakeSSoft(h)] == [Write(h), Write(h), TakeSSoft(h)];
    OneThenRest(s, TakeMSoft(h), [Write(h), Write(h), TakeSSoft(h)]);
    assert [TakeMSoft(h)] + [Write(h), Write(h), TakeSSoft(h)] == [TakeMSoft(h), Write(h), Write(h), TakeSSoft(h)];
  }

  /** Hart g's IPI to hart h, itself or another, from the call to the S-mode interrupt. */
  lemma SentIpiArrives(s: State, g: nat, h: Word)
    requires Shaped(s) && InCode(s, g) && InCode(s, h) && s.harts[h].sie && s.harts[h].ssie
    ensures var es := [SendIpi(g, h), Write(g)] + [TakeMSoft(h), Write(h), Write(h), TakeSSoft(h)];
      Runs(s, es) && Run(s, es).harts[h].taken == s.harts[h].taken + 1
  {
    var s1 := Step(s, SendIpi(g, h));
    RegsReached(s1, g, h);
    var s2 := Step(s1, Write(g));
    SoftForwarded(s2, h);
    var rest := [TakeMSoft(h), Write(h), Write(h), TakeSSoft(h)];
    OneThenRest(s1, Write(g), rest);
    OneThenRest(s, SendIpi(g, h), [Write(g)] + rest);
    assert [SendIpi(g, h)] + ([Write(g)] + rest) == [SendIpi(g, h), Write(g)] + rest;
  }
}
