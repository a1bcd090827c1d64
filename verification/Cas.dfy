/** Compare-and-swap by LR/SC, instruction by instruction: any number of harts run it on one word, any hart stores
    to the word in between, and any SC may fail for no reason (section 8.2 of the Unprivileged ISA 20191213). */
module Cas {
  import opened Words

  datatype Point = Idle | AtLr | AtBne | AtSc | AtBnez | AtReturn

  /** A hart in its call: the operands, the registers `old` and `sc_result`, and its reservation. `began` is how many
      stores the word had seen when the call started, `at` how many when `old` was loaded. */
  datatype Hart = Hart(
    point: Point, expected: Word, desired: Word, old_: Word, sc: Word, reserved: bool, began: nat, at: nat)

  datatype Write = Write(who: nat, value: Word)

  /** A finished call; `ended` is how many stores the word had seen when it returned. */
  datatype Call = Call(who: nat, expected: Word, desired: Word, result: int, began: nat, at: nat, ended: nat)

  /** The word is its initial value and the stores made to it, in coherence order. */
  datatype State = State(initial: Word, log: seq<Write>, harts: seq<Hart>, calls: seq<Call>)

  datatype Event =
    | Begin(h: nat, expected: Word, desired: Word)
    | Lr(h: nat)
    | Bne(h: nat)
    | Sc(h: nat, ok: bool)
    | Bnez(h: nat)
    | Return(h: nat)
    | Store(who: nat, value: Word)       // a store by a hart that is not inside the routine

  function ValueAt(s: State, n: nat): Word
    requires n <= |s.log|
  {
    if n == 0 then s.initial else s.log[n - 1].value
  }

  predicate Is(s: State, h: nat, p: Point) { h < |s.harts| && s.harts[h].point == p }

  predicate Possible(s: State, e: Event) {
    match e
    case Begin(h, _, _) => Is(s, h, Idle)
    case Lr(h) => Is(s, h, AtLr)
    case Bne(h) => Is(s, h, AtBne)
    case Sc(h, ok) => Is(s, h, AtSc) && (ok ==> s.harts[h].reserved)
    case Bnez(h) => Is(s, h, AtBnez)
    case Return(h) => Is(s, h, AtReturn)
    case Store(who, _) => who < |s.harts| ==> Is(s, who, Idle)
  }

  /** A store breaks every reservation on the word. */
  function Unreserved(harts: seq<Hart>): (r: seq<Hart>)
    ensures |r| == |harts| && forall h | 0 <= h < |harts| :: r[h] == harts[h].(reserved := false)
  {
    seq(|harts|, h requires 0 <= h < |harts| => harts[h].(reserved := false))
  }

  function Stored(s: State, who: nat, v: Word): State {
    State(s.initial, s.log + [Write(who, v)], Unreserved(s.harts), s.calls)
  }

  function Put(s: State, h: nat, x: Hart): State
    requires h < |s.harts|
  {
    State(s.initial, s.log, s.harts[h := x], s.calls)
  }

  /** What the routine returns is decided by `old`, not by the SC. */
  function Result(x: Hart): int { if x.old_ == x.expected then 1 else 0 }

  function Step(s: State, e: Event): State
    requires Possible(s, e)
  {
    match e
    case Begin(h, x, d) => Put(s, h, s.harts[h].(point := AtLr, expected := x, desired := d, began := |s.log|))
    case Lr(h) => Put(s, h, s.harts[h].(point := AtBne, old_ := ValueAt(s, |s.log|), reserved := true, at := |s.log|))
    case Bne(h) => Put(s, h, s.harts[h].(point := if s.harts[h].old_ != s.harts[h].expected then AtReturn else AtSc))
    case Sc(h, ok) =>
      var x := s.harts[h].(point := AtBnez, sc := if ok then 0 else 1, reserved := false);
      if ok then Put(Stored(s, h, x.desired), h, x) else Put(s, h, x)
    case Bnez(h) => Put(s, h, s.harts[h].(point := if s.harts[h].sc != 0 then AtLr else AtReturn))
    case Return(h) =>
      var x := s.harts[h];
      State(s.initial, s.log, s.harts[h := x.(point := Idle)],
            s.calls + [Call(h, x.expected, x.desired, Result(x), x.began, x.at, |s.log|)])
    case Store(who, v) => Stored(s, who, v)
  }

  predicate Runs(s: State, es: seq<Event>)
    decreases |es|
  {
    es == [] || (Possible(s, es[0]) && Runs(Step(s, es[0]), es[1..]))
  }

  function Run(s: State, es: seq<Event>): State
    requires Runs(s, es)
    decreases |es|
  {
    if es == [] then s else Run(Step(s, es[0]), es[1..])
  }

  predicate Starts(s: State) {
    s.log == [] && s.calls == [] && forall h | 0 <= h < |s.harts| :: s.harts[h].point == Idle && !s.harts[h].reserved
  }

  // ---- Linearizability ----

  /** Of the stores numbered from..to, hart h made at most the one at `at`. */
  predicate OnlyStore(s: State, h: nat, from: nat, to: nat, at: nat)
    requires to <= |s.log|
  {
    forall k | from <= k < to :: s.log[k].who == h ==> k == at
  }

  predicate NoStore(s: State, h: nat, from: nat, to: nat)
    requires to <= |s.log|
  {
    forall k | from <= k < to :: s.log[k].who != h
  }

  /** The call took effect at one moment between its start and its return. Returning 1: its only store turned
      `expected` into `desired`, with no store of anyone between the load and it. Returning 0: it stored nothing, and
      the word held something else at that moment. */
  predicate Linearized(s: State, c: Call) {
    && c.began <= c.at <= c.ended <= |s.log|
    && (c.result == 1 || c.result == 0)
    && (c.result == 1 ==>
          && c.at < c.ended && ValueAt(s, c.at) == c.expected
          && s.log[c.at] == Write(c.who, c.desired)
          && OnlyStore(s, c.who, c.began, c.ended, c.at))
    && (c.result == 0 ==> ValueAt(s, c.at) != c.expected && NoStore(s, c.who, c.began, c.ended))
  }

  /** The SC has succeeded and the call has not returned yet. */
  predicate Won(x: Hart) {
    (x.point == AtBnez && x.sc == 0) || (x.point == AtReturn && x.old_ == x.expected)
  }

  predicate HartOk(s: State, h: nat)
    requires h < |s.harts|
  {
    var x := s.harts[h];
    && (x.reserved ==> x.at == |s.log|)
    && (x.point != Idle ==> x.began <= |s.log|)
    && (x.point == AtLr ==> NoStore(s, h, x.began, |s.log|))
    && (x.point != Idle && x.point != AtLr ==> x.began <= x.at <= |s.log| && x.old_ == ValueAt(s, x.at))
    && (x.point == AtSc || x.point == AtBnez ==> x.old_ == x.expected)
    && (x.point != Idle && x.point != AtLr && !Won(x) ==> NoStore(s, h, x.began, |s.log|))
    && (Won(x) ==> x.at < |s.log| && s.log[x.at] == Write(h, x.desired) && OnlyStore(s, h, x.began, |s.log|, x.at))
  }

  predicate Invariant(s: State) {
    && (forall h | 0 <= h < |s.harts| :: HartOk(s, h))
    && forall i | 0 <= i < |s.calls| :: Linearized(s, s.calls[i])
  }

  lemma StoredKeepsOthers(s: State, who: nat, v: Word, h: nat)
    requires h < |s.harts| && HartOk(s, h) && h != who
    ensures HartOk(Stored(s, who, v), h)
  {
    var t := Stored(s, who, v);
    assert forall k | 0 <= k < |s.log| :: t.log[k] == s.log[k];
    assert forall n | 0 <= n <= |s.log| :: ValueAt(t, n) == ValueAt(s, n);
  }

  lemma LogGrows(s: State, t: State, c: Call)
    requires Linearized(s, c) && t.initial == s.initial && |s.log| <= |t.log| && t.log[..|s.log|] == s.log
    ensures Linearized(t, c)
  {
    assert forall k | 0 <= k < |s.log| :: t.log[k] == t.log[..|s.log|][k];
    assert forall n | 0 <= n <= |s.log| :: ValueAt(t, n) == ValueAt(s, n);
  }

  lemma HartStep(s: State, e: Event, h: nat)
    requires Possible(s, e) && !e.Store? && h == e.h && HartOk(s, h)
    ensures HartOk(Step(s, e), h)
  {
    var t := Step(s, e);
    if e.Sc? && e.ok {
      assert forall k | 0 <= k < |s.log| :: t.log[k] == s.log[k];
      assert forall n | 0 <= n <= |s.log| :: ValueAt(t, n) == ValueAt(s, n);
    }
  }

  lemma OtherHart(s: State, e: Event, h: nat)
    requires Possible(s, e) && h < |s.harts| && HartOk(s, h) && (!e.Store? ==> h != e.h)
    ensures HartOk(Step(s, e), h)
  {
    match e {
      case Sc(g, ok) =>
        if ok { StoredKeepsOthers(s, g, s.harts[g].desired, h); }
      case Store(who, v) =>
        if who != h { StoredKeepsOthers(s, who, v, h); }
      case _ =>
    }
  }

  lemma StepKeeps(s: State, e: Event)
    requires Invariant(s) && Possible(s, e)
    ensures Invariant(Step(s, e))
  {
    var t := Step(s, e);
    forall h | 0 <= h < |t.harts| ensures HartOk(t, h) {
      if e.Store? || h != e.h { OtherHart(s, e, h); } else { HartStep(s, e, h); }
    }
    forall i | 0 <= i < |t.calls| ensures Linearized(t, t.calls[i]) {
      if i < |s.calls| {
        assert t.calls[i] == s.calls[i];
        LogGrows(s, t, s.calls[i]);
      } else {
        assert HartOk(s, e.h);
      }
    }
  }

  lemma {:induction false} RunKeeps(s: State, es: seq<Event>)
    requires Invariant(s) && Runs(s, es)
    ensures Invariant(Run(s, es))
    decreases |es|
  {
    if es != [] {
      StepKeeps(s, es[0]);
      RunKeeps(Step(s, es[0]), es[1..]);
    }
  }

  /** In every run of any number of harts, against any stores and any spurious failures, every call that returns is
      linearized: a success did its one store on the very state it had loaded, so a word that was changed and changed
      back never passes for an untouched one. */
  lemma EveryCallLinearized(s: State, es: seq<Event>)
    requires Starts(s) && Runs(s, es)
    ensures forall i | 0 <= i < |Run(s, es).calls| :: Linearized(Run(s, es), Run(s, es).calls[i])
  {
    RunKeeps(s, es);
  }

  predicate OfOthers(es: seq<Event>, h: nat) {
    forall i | 0 <= i < |es| :: if es[i].Store? then es[i].who != h else es[i].h != h
  }

  lemma {:induction false} OthersBreakReservation(s: State, es: seq<Event>, h: nat)
    requires Runs(s, es) && OfOthers(es, h) && h < |s.harts|
    ensures var t := Run(s, es);
      && |t.log| >= |s.log| && |t.harts| == |s.harts|
      && t.harts[h] == s.harts[h].(reserved := s.harts[h].reserved && |t.log| == |s.log|)
    decreases |es|
  {
    if es != [] { OthersBreakReservation(Step(s, es[0]), es[1..], h); }
  }

  /** Whatever the other harts do while a hart stands before its SC, the SC can succeed if and only if its reservation
      was good and they stored nothing, not even values that leave the word as it was. */
  lemma ScSucceedsIffNoStore(s: State, es: seq<Event>, h: nat)
    requires Is(s, h, AtSc) && Runs(s, es) && OfOthers(es, h)
    ensures Possible(Run(s, es), Sc(h, true)) <==> s.harts[h].reserved && Run(s, es).log == s.log
  {
    OthersBreakReservation(s, es, h);
    LogOnlyGrows(s, es);
  }

  lemma {:induction false} LogOnlyGrows(s: State, es: seq<Event>)
    requires Runs(s, es)
    ensures s.log <= Run(s, es).log
    decreases |es|
  {
    if es != [] { LogOnlyGrows(Step(s, es[0]), es[1..]); }
  }

  // ---- Calls that run to their end ----

  lemma OneThenRest(s: State, e: Event, es: seq<Event>)
    requires Possible(s, e) && Runs(Step(s, e), es)
    ensures Runs(s, [e] + es) && Run(s, [e] + es) == Run(Step(s, e), es)
  {
    assert ([e] + es)[1..] == es;
  }

  /** Rounds of the loop whose SC fails for no reason. */
  function Spurious(h: nat, n: nat): seq<Event> {
    if n == 0 then [] else [Lr(h)] + ([Bne(h)] + ([Sc(h, false)] + ([Bnez(h)] + Spurious(h, n - 1))))
  }

  lemma SpuriousRound(s: State, h: nat, es: seq<Event>)
    requires Is(s, h, AtLr) && s.harts[h].expected == ValueAt(s, |s.log|)
    requires forall t: State | SameCall(s, t, h) :: Runs(t, es) && Finished(s, Run(t, es), h)
    ensures var all := [Lr(h)] + ([Bne(h)] + ([Sc(h, false)] + ([Bnez(h)] + es)));
      Runs(s, all) && Finished(s, Run(s, all), h)
  {
    var s1 := Step(s, Lr(h));
    var s2 := Step(s1, Bne(h));
    var s3 := Step(s2, Sc(h, false));
    var s4 := Step(s3, Bnez(h));
    assert SameCall(s, s4, h);
    OneThenRest(s3, Bnez(h), es);
    OneThenRest(s2, Sc(h, false), [Bnez(h)] + es);
    OneThenRest(s1, Bne(h), [Sc(h, false)] + ([Bnez(h)] + es));
    OneThenRest(s, Lr(h), [Bne(h)] + ([Sc(h, false)] + ([Bnez(h)] + es)));
  }

  /** Hart h back before its LR, in the same call and with nothing stored. */
  predicate SameCall(s: State, t: State, h: nat)
    requires Is(s, h, AtLr)
  {
    && Is(t, h, AtLr) && t.initial == s.initial && t.log == s.log && t.calls == s.calls
    && t.harts[h].expected == s.harts[h].expected && t.harts[h].desired == s.harts[h].desired
    && t.harts[h].began == s.harts[h].began
  }

  /** Its call has returned 1, and the word holds what it wanted. */
  predicate Finished(s: State, t: State, h: nat)
    requires Is(s, h, AtLr)
  {
    && t.log == s.log + [Write(h, s.harts[h].desired)]
    && t.calls == s.calls + [
         Call(h, s.harts[h].expected, s.harts[h].desired, 1, s.harts[h].began, |s.log|, |s.log| + 1)]
    && Is(t, h, Idle) && ValueAt(t, |t.log|) == s.harts[h].desired
  }

  function LastRound(h: nat): seq<Event> { [Lr(h), Bne(h), Sc(h, true), Bnez(h), Return(h)] }

  lemma LastRoundFinishes(s: State, h: nat)
    requires Is(s, h, AtLr) && s.harts[h].expected == ValueAt(s, |s.log|)
    ensures Runs(s, LastRound(h)) && Finished(s, Run(s, LastRound(h)), h)
  {
    var s1 := Step(s, Lr(h));
    var s2 := Step(s1, Bne(h));
    var s3 := Step(s2, Sc(h, true));
    var s4 := Step(s3, Bnez(h));
    var s5 := Step(s4, Return(h));
    assert Finished(s, s5, h);
    OneThenRest(s4, Return(h), []);
    OneThenRest(s3, Bnez(h), [Return(h)]);
    OneThenRest(s2, Sc(h, true), [Bnez(h), Return(h)]);
    OneThenRest(s1, Bne(h), [Sc(h, true), Bnez(h), Return(h)]);
    OneThenRest(s, Lr(h), [Bne(h), Sc(h, true), Bnez(h), Return(h)]);
  }

  lemma {:induction false} RoundsFinish(s: State, h: nat, n: nat)
    requires Is(s, h, AtLr) && s.harts[h].expected == ValueAt(s, |s.log|)
    ensures Runs(s, Spurious(h, n) + LastRound(h)) && Finished(s, Run(s, Spurious(h, n) + LastRound(h)), h)
    decreases n
  {
    if n == 0 {
      LastRoundFinishes(s, h);
      assert [] + LastRound(h) == LastRound(h);
    } else {
      var es := Spurious(h, n - 1) + LastRound(h);
      forall t: State | SameCall(s, t, h) ensures Runs(t, es) && Finished(s, Run(t, es), h) {
        RoundsFinish(t, h, n - 1);
      }
      SpuriousRound(s, h, es);
      assert Spurious(h, n) + LastRound(h) == [Lr(h)] + ([Bne(h)] + ([Sc(h, false)] + ([Bnez(h)] + es)));
    }
  }

  /** Left alone on a word that holds `expected`, a call returns 1 and the word holds `desired`, after any number of
      SCs that failed for no reason. */
  lemma LoneCallSucceeds(s: State, h: nat, expected: Word, desired: Word, n: nat)
    requires Is(s, h, Idle) && ValueAt(s, |s.log|) == expected
    ensures var es := [Begin(h, expected, desired)]
                      + (Spurious(h, n) + [Lr(h), Bne(h), Sc(h, true), Bnez(h), Return(h)]);
      && Runs(s, es) && Run(s, es).log == s.log + [Write(h, desired)]
      && Run(s, es).calls == s.calls + [Call(h, expected, desired, 1, |s.log|, |s.log|, |s.log| + 1)]
  {
    RoundsFinish(Step(s, Begin(h, expected, desired)), h, n);
    OneThenRest(s, Begin(h, expected, desired), Spurious(h, n) + LastRound(h));
  }

  /** On a word that holds something else it returns 0 and stores nothing. */
  lemma LoneCallFails(s: State, h: nat, expected: Word, desired: Word)
    requires Is(s, h, Idle) && ValueAt(s, |s.log|) != expected
    ensures var es := [Begin(h, expected, desired), Lr(h), Bne(h), Return(h)];
      && Runs(s, es) && Run(s, es).log == s.log
      && Run(s, es).calls == s.calls + [Call(h, expected, desired, 0, |s.log|, |s.log|, |s.log|)]
  {
    var s1 := Step(s, Begin(h, expected, desired));
    var s2 := Step(s1, Lr(h));
    var s3 := Step(s2, Bne(h));
    OneThenRest(s3, Return(h), []);
    OneThenRest(s2, Bne(h), [Return(h)]);
    OneThenRest(s1, Lr(h), [Bne(h), Return(h)]);
    OneThenRest(s, Begin(h, expected, desired), [Lr(h), Bne(h), Return(h)]);
  }

  // ---- Conservation ----

  function Wins(calls: seq<Call>): nat {
    if calls == [] then 0 else Wins(calls[..|calls| - 1]) + if calls[|calls| - 1].result == 1 then 1 else 0
  }

  function WonHarts(harts: seq<Hart>): nat {
    if harts == [] then 0 else WonHarts(harts[..|harts| - 1]) + if Won(harts[|harts| - 1]) then 1 else 0
  }

  function Weight(x: Hart): nat { if Won(x) then 1 else 0 }

  lemma {:induction false} OneHartMoves(a: seq<Hart>, h: nat, b: seq<Hart>)
    requires h < |a| == |b| && forall g | 0 <= g < |a| && g != h :: Won(a[g]) == Won(b[g])
    ensures WonHarts(b) == WonHarts(a) - Weight(a[h]) + Weight(b[h])
  {
    var n := |a| - 1;
    if h < n {
      OneHartMoves(a[..n], h, b[..n]);
    } else {
      NoHartMoves(a[..n], b[..n]);
    }
  }

  lemma {:induction false} NoHartMoves(a: seq<Hart>, b: seq<Hart>)
    requires |a| == |b| && forall g | 0 <= g < |a| :: Won(a[g]) == Won(b[g])
    ensures WonHarts(b) == WonHarts(a)
  {
    if a != [] { NoHartMoves(a[..|a| - 1], b[..|a| - 1]); }
  }

  function Stores(es: seq<Event>): (n: nat) {
    if es == [] then 0 else (if es[0].Store? then 1 else 0) + Stores(es[1..])
  }

  function Balance(s: State): int { |s.log| - Wins(s.calls) - WonHarts(s.harts) }

  lemma StepBalances(s: State, e: Event)
    requires Invariant(s) && Possible(s, e)
    ensures Balance(Step(s, e)) == Balance(s) + if e.Store? then 1 else 0
  {
    var t := Step(s, e);
    if e.Store? {
      NoHartMoves(s.harts, t.harts);
    } else {
      assert HartOk(s, e.h);
      OneHartMoves(s.harts, e.h, t.harts);
      if e.Return? { assert t.calls[..|s.calls|] == s.calls; }
    }
  }

  /** Every store to the word is a plain store, or belongs to exactly one call that returned 1 or is about to. */
  lemma {:induction false} StoresAccounted(s: State, es: seq<Event>)
    requires Invariant(s) && Runs(s, es)
    ensures Balance(Run(s, es)) == Balance(s) + Stores(es)
    decreases |es|
  {
    if es != [] {
      StepBalances(s, es[0]);
      StepKeeps(s, es[0]);
      StoresAccounted(Step(s, es[0]), es[1..]);
    }
  }

  // ---- A counter kept by compare-and-swap ----

  /** Every store adds one to what was there. */
  predicate Counting(s: State) {
    && (forall n | 0 <= n < |s.log| :: s.log[n].value == Plus(ValueAt(s, n), 1))
    && forall h | 0 <= h < |s.harts| && s.harts[h].point != Idle :: s.harts[h].desired == Plus(s.harts[h].expected, 1)
  }

  predicate Increments(es: seq<Event>) {
    forall i | 0 <= i < |es| :: !es[i].Store? && (es[i].Begin? ==> es[i].desired == Plus(es[i].expected, 1))
  }

  lemma StepCounts(s: State, e: Event)
    requires Invariant(s) && Possible(s, e) && Counting(s)
    requires !e.Store? && (e.Begin? ==> e.desired == Plus(e.expected, 1))
    ensures Counting(Step(s, e)) && Step(s, e).initial == s.initial
  {
    var t := Step(s, e);
    assert HartOk(s, e.h);
    assert forall n | 0 <= n < |s.log| :: t.log[n] == s.log[n] && ValueAt(t, n) == ValueAt(s, n);
  }

  lemma {:induction false} CountingKept(s: State, es: seq<Event>)
    requires Invariant(s) && Runs(s, es) && Counting(s) && Increments(es)
    ensures Counting(Run(s, es)) && Run(s, es).initial == s.initial
    decreases |es|
  {
    if es != [] {
      StepCounts(s, es[0]);
      StepKeeps(s, es[0]);
      CountingKept(Step(s, es[0]), es[1..]);
    }
  }

  lemma {:induction false} CountedUp(s: State, n: nat)
    requires Counting(s) && n <= |s.log|
    ensures ValueAt(s, n) == Plus(s.initial, n)
  {
    if n > 0 {
      CountedUp(s, n - 1);
      PlusOne(s.initial, n - 1);
    }
  }

  lemma AllIdle(harts: seq<Hart>)
    requires forall h | 0 <= h < |harts| :: harts[h].point == Idle
    ensures WonHarts(harts) == 0
  {
    if harts != [] { AllIdle(harts[..|harts| - 1]); }
  }

  /** When harts add one by compare-and-swap alone, however their steps interleave, the word ends at its first value
      plus the number of calls that returned 1: no increment is lost, and none is made twice. */
  lemma CasCounterIsExact(s: State, es: seq<Event>)
    requires Starts(s) && Runs(s, es) && Increments(es)
    requires forall h | 0 <= h < |Run(s, es).harts| :: Run(s, es).harts[h].point == Idle
    ensures var t := Run(s, es); ValueAt(t, |t.log|) == Plus(s.initial, Wins(t.calls))
  {
    var t := Run(s, es);
    CountingKept(s, es);
    CountedUp(t, |t.log|);
    StoresAccounted(s, es);
    NoStores(es);
    AllIdle(s.harts);
    AllIdle(t.harts);
  }

  lemma {:induction false} NoStores(es: seq<Event>)
    requires Increments(es)
    ensures Stores(es) == 0
  {
    if es != [] { NoStores(es[1..]); }
  }
}
