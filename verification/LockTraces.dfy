/** What the lock's theorems cover: every trace the source's loops can make is a worker's, and for every schedule there
    is an execution with a hart that finds the lock held. */
module LockTraces {
  import opened Words
  import opened Rvwmo
  import opened Handshake
  import opened SpinLock
  import opened Interleaved

  // ---- The loops as the source writes them ----

  /** One round: what each failed amoswap returned, what the load of the variable returned, and what the releasing
      amoswap returned. */
  datatype Round = Round(fails: seq<Word>, v: Word, held: Word)

  /** `while (amo_swap_d(lock, 1) != 0)`, so far in vain. */
  function Spins(fails: seq<Word>): Trace {
    if fails == [] then [] else [Amo(LOCK, fails[0], 1)] + Spins(fails[1..])
  }

  function RoundTrace(r: Round): Trace {
    Spins(r.fails)
    + [Amo(LOCK, 0, 1), Fence(true, false, true, true), Load(SHARED, r.v), Store(SHARED, Plus(r.v, 1)),
       Fence(true, true, false, true), Amo(LOCK, r.held, 0)]
  }

  function LoopTrace(rounds: seq<Round>): Trace {
    if rounds == [] then [] else LoopTrace(rounds[..|rounds| - 1]) + RoundTrace(rounds[|rounds| - 1])
  }

  /** `fence w,w; core1_lock_done = 1`. */
  function DoneTrace(me: nat): Trace { [Fence(false, true, false, true), Store(Flag(me), 1)] }

  /** `spin_wait` on hart h's flag, seen lowered for each of the polls before it is seen raised. */
  function WaitTrace(h: nat, polls: nat): Trace {
    if polls == 0 then [Load(Flag(h), 1)] else [Load(Flag(h), 0)] + WaitTrace(h, polls - 1)
  }

  /** The point a hart reaches from s. */
  function After(me: nat, s: Point, t: Trace): Point
    decreases |t|
  {
    if t == [] then s else After(me, Next(me, s, t[0]), t[1..])
  }

  lemma {:induction false} AfterAppend(me: nat, s: Point, t: Trace, u: Trace)
    ensures After(me, s, t + u) == After(me, After(me, s, t), u)
    decreases |t|
  {
    if t == [] {
      assert t + u == u;
    } else {
      assert (t + u)[1..] == t[1..] + u;
      AfterAppend(me, Next(me, s, t[0]), t[1..], u);
    }
  }

  lemma {:induction false} PointOfPrefix(me: nat, t: Trace, u: Trace, n: nat)
    requires n <= |t|
    ensures PointAt(me, t + u, n) == PointAt(me, t, n)
  {
    if n > 0 { PointOfPrefix(me, t, u, n - 1); }
  }

  lemma {:induction false} PointIsAfter(me: nat, t: Trace)
    ensures PointAt(me, t, |t|) == After(me, Trying, t)
    decreases |t|
  {
    if t != [] {
      var n := |t| - 1;
      assert t == t[..n] + [t[n]];
      PointIsAfter(me, t[..n]);
      AfterAppend(me, Trying, t[..n], [t[n]]);
      PointOfPrefix(me, t[..n], [t[n]], n);
      assert After(me, PointAt(me, t, n), [t[n]]) == Next(me, PointAt(me, t, n), t[n]);
    }
  }

  lemma {:induction false} SpinsKeepTrying(me: nat, fails: seq<Word>)
    requires forall i | 0 <= i < |fails| :: fails[i] != 0
    ensures After(me, Trying, Spins(fails)) == Trying
  {
    if fails != [] {
      assert Spins(fails)[1..] == Spins(fails[1..]);
      SpinsKeepTrying(me, fails[1..]);
    }
  }

  lemma RoundEndsTrying(me: nat, r: Round)
    requires forall i | 0 <= i < |r.fails| :: r.fails[i] != 0
    ensures After(me, Trying, RoundTrace(r)) == Trying
  {
    var section := [Amo(LOCK, 0, 1), Fence(true, false, true, true), Load(SHARED, r.v), Store(SHARED, Plus(r.v, 1)),
                    Fence(true, true, false, true), Amo(LOCK, r.held, 0)];
    SpinsKeepTrying(me, r.fails);
    AfterAppend(me, Trying, Spins(r.fails), section);
    SectionEndsTrying(me, r.v, r.held);
  }

  lemma SectionEndsTrying(me: nat, v: Word, held: Word)
    ensures After(me, Trying, [Amo(LOCK, 0, 1), Fence(true, false, true, true), Load(SHARED, v),
                               Store(SHARED, Plus(v, 1)), Fence(true, true, false, true), Amo(LOCK, held, 0)]) == Trying
  {
    AfterOne(me, Trying, Amo(LOCK, 0, 1),
             [Fence(true, false, true, true), Load(SHARED, v), Store(SHARED, Plus(v, 1)),
              Fence(true, true, false, true), Amo(LOCK, held, 0)]);
    AfterOne(me, Acquired, Fence(true, false, true, true),
             [Load(SHARED, v), Store(SHARED, Plus(v, 1)), Fence(true, true, false, true), Amo(LOCK, held, 0)]);
    AfterOne(me, Entered, Load(SHARED, v),
             [Store(SHARED, Plus(v, 1)), Fence(true, true, false, true), Amo(LOCK, held, 0)]);
    AfterOne(me, Loaded(v), Store(SHARED, Plus(v, 1)), [Fence(true, true, false, true), Amo(LOCK, held, 0)]);
    AfterOne(me, Stored, Fence(true, true, false, true), [Amo(LOCK, held, 0)]);
    AfterOne(me, Leaving, Amo(LOCK, held, 0), []);
    assert [Amo(LOCK, held, 0)] + [] == [Amo(LOCK, held, 0)];
  }

  lemma AfterOne(me: nat, s: Point, op: Op, rest: Trace)
    ensures After(me, s, [op] + rest) == After(me, Next(me, s, op), rest)
  {
    assert ([op] + rest)[1..] == rest;
  }

  predicate RealSpins(rounds: seq<Round>) {
    forall k, i | 0 <= k < |rounds| && 0 <= i < |rounds[k].fails| :: rounds[k].fails[i] != 0
  }

  lemma {:induction false} LoopEndsTrying(me: nat, rounds: seq<Round>)
    requires RealSpins(rounds)
    ensures After(me, Trying, LoopTrace(rounds)) == Trying
    decreases |rounds|
  {
    if rounds != [] {
      var n := |rounds| - 1;
      LoopEndsTrying(me, rounds[..n]);
      AfterAppend(me, Trying, LoopTrace(rounds[..n]), RoundTrace(rounds[n]));
      RoundEndsTrying(me, rounds[n]);
    }
  }

  /** Every trace of the loop is a worker's: any number of rounds, each with any number of amoswaps that return anything
      but zero, and any values loaded. */
  lemma AnyLoopIsWorker(me: nat, rounds: seq<Round>)
    requires RealSpins(rounds)
    ensures Worker(me, LoopTrace(rounds)) && Worker(me, LoopTrace(rounds) + DoneTrace(me))
  {
    var t := LoopTrace(rounds);
    LoopEndsTrying(me, rounds);
    PointIsAfter(me, t);
    PointIsAfter(me, t + DoneTrace(me));
    AfterAppend(me, Trying, t, DoneTrace(me));
    AfterOne(me, Trying, Fence(false, true, false, true), [Store(Flag(me), 1)]);
    AfterOne(me, Closing, Store(Flag(me), 1), []);
    assert [Store(Flag(me), 1)] + [] == [Store(Flag(me), 1)];
  }

  lemma {:induction false} WaitingWatches(me: nat, s: Point, h: nat, polls: nat)
    requires s.Trying? || s.Watching?
    ensures After(me, s, WaitTrace(h, polls)) == Watching
    decreases polls
  {
    if polls == 0 {
      AfterOne(me, s, Load(Flag(h), 1), []);
      assert [Load(Flag(h), 1)] + [] == [Load(Flag(h), 1)];
    } else {
      AfterOne(me, s, Load(Flag(h), 0), WaitTrace(h, polls - 1));
      WaitingWatches(me, Watching, h, polls - 1);
    }
  }

  /** So is the loop followed by any number of polls of a done flag, a fence r,rw or none, and the read of the total. */
  lemma AnyWatcherIsWorker(me: nat, rounds: seq<Round>, h: nat, polls: nat, fenced: bool, total: Word)
    requires RealSpins(rounds)
    ensures Worker(me, LoopTrace(rounds) + WaitTrace(h, polls) + [Optional(fenced, FENCE_R_RW), Load(SHARED, total)])
  {
    var t, w := LoopTrace(rounds), WaitTrace(h, polls);
    var read := [Optional(fenced, FENCE_R_RW), Load(SHARED, total)];
    LoopEndsTrying(me, rounds);
    AfterAppend(me, Trying, t, w);
    WaitingWatches(me, Trying, h, polls);
    AfterAppend(me, Trying, t + w, read);
    AfterOne(me, Watching, Optional(fenced, FENCE_R_RW), [Load(SHARED, total)]);
    AfterOne(me, Watching, Load(SHARED, total), []);
    assert [Load(SHARED, total)] + [] == [Load(SHARED, total)];
    PointIsAfter(me, t + w + read);
  }

  // ---- The prologue and the start of the job ----

  /** Core 0's clearing stores, other than those of the lock and the variable. */
  function ClearTrace(fields: seq<Loc>): Trace {
    if fields == [] then [] else [Store(fields[0], 0)] + ClearTrace(fields[1..])
  }

  /** The fence w,w the test lacks, the post, and the fence w,w behind it. */
  function PostTrace(announced: bool, f: Word): Trace {
    [Optional(announced, Fence(false, true, false, true)), Store(MAILBOX, f), Fence(false, true, false, true)]
  }

  /** Core 1's park loop: polls of the empty mailbox, the test that sees the post, and the load it calls through. */
  function ParkTrace(polls: nat, f: Word): Trace {
    if polls == 0 then [Load(MAILBOX, f), Load(MAILBOX, f)] else [Load(MAILBOX, 0)] + ParkTrace(polls - 1, f)
  }

  lemma {:induction false} ClearsKeepTrying(me: nat, fields: seq<Loc>)
    requires forall i | 0 <= i < |fields| :: fields[i] >= 2
    ensures After(me, Trying, ClearTrace(fields)) == Trying
  {
    if fields != [] {
      AfterOne(me, Trying, Store(fields[0], 0), ClearTrace(fields[1..]));
      ClearsKeepTrying(me, fields[1..]);
    }
  }

  lemma PostCloses(me: nat, announced: bool, f: Word)
    ensures After(me, Trying, PostTrace(announced, f)) == Closing
  {
    var fence, post := Optional(announced, Fence(false, true, false, true)), Store(MAILBOX, f);
    AfterOne(me, Trying, fence, [post, Fence(false, true, false, true)]);
    AfterOne(me, Next(me, Trying, fence), post, [Fence(false, true, false, true)]);
    AfterOne(me, Trying, Fence(false, true, false, true), []);
    assert [Fence(false, true, false, true)] + [] == [Fence(false, true, false, true)];
  }

  lemma {:induction false} ParkKeepsTrying(me: nat, polls: nat, f: Word)
    ensures After(me, Trying, ParkTrace(polls, f)) == Trying
    decreases polls
  {
    if polls == 0 {
      AfterOne(me, Trying, Load(MAILBOX, f), [Load(MAILBOX, f)]);
      AfterOne(me, Trying, Load(MAILBOX, f), []);
      assert [Load(MAILBOX, f)] + [] == [Load(MAILBOX, f)];
    } else {
      AfterOne(me, Trying, Load(MAILBOX, 0), ParkTrace(polls - 1, f));
      ParkKeepsTrying(me, polls - 1, f);
    }
  }

  /** Right behind a fence w,w everything but the hart's own flag goes as elsewhere. */
  lemma ClosingIsTrying(me: nat, t: Trace)
    requires t != [] && t[0] != Store(Flag(me), 1)
    ensures After(me, Closing, t) == After(me, Trying, t)
  {
  }

  lemma LoopStarts(rounds: seq<Round>, rest: Trace)
    requires rest != [] && !rest[0].Store?
    ensures LoopTrace(rounds) + rest != [] && !(LoopTrace(rounds) + rest)[0].Store?
    decreases |rounds|
  {
    if rounds != [] {
      var n := |rounds| - 1;
      var last := RoundTrace(rounds[n]);
      LoopStarts(rounds[..n], last + rest);
      assert LoopTrace(rounds[..n]) + (last + rest) == LoopTrace(rounds) + rest;
    }
  }

  /** Core 0 from its clearing to the read of the total is a worker. */
  lemma AnyPosterIsWorker(
    fields: seq<Loc>, announced: bool, f: Word, rounds: seq<Round>, h: nat, polls: nat, fenced: bool, total: Word)
    requires RealSpins(rounds) && forall i | 0 <= i < |fields| :: fields[i] >= 2
    ensures Worker(0, ClearTrace(fields) + PostTrace(announced, f)
                      + (LoopTrace(rounds)
                         + (WaitTrace(h, polls) + [Optional(fenced, FENCE_R_RW), Load(SHARED, total)])))
  {
    var start := ClearTrace(fields) + PostTrace(announced, f);
    var read := [Optional(fenced, FENCE_R_RW), Load(SHARED, total)];
    var rest := LoopTrace(rounds) + (WaitTrace(h, polls) + read);
    ClearsKeepTrying(0, fields);
    PostCloses(0, announced, f);
    AfterAppend(0, Trying, ClearTrace(fields), PostTrace(announced, f));
    AfterAppend(0, Trying, start, rest);
    LoopStarts(rounds, WaitTrace(h, polls) + read);
    ClosingIsTrying(0, rest);
    WatcherEnds(0, rounds, h, polls, fenced, total);
    PointIsAfter(0, start + rest);
  }

  lemma WatcherEnds(me: nat, rounds: seq<Round>, h: nat, polls: nat, fenced: bool, total: Word)
    requires RealSpins(rounds)
    ensures After(me, Trying, LoopTrace(rounds)
                              + (WaitTrace(h, polls) + [Optional(fenced, FENCE_R_RW), Load(SHARED, total)])) == Watching
  {
    var t, w := LoopTrace(rounds), WaitTrace(h, polls);
    var read := [Optional(fenced, FENCE_R_RW), Load(SHARED, total)];
    LoopEndsTrying(me, rounds);
    AfterAppend(me, Trying, t, w + read);
    WaitingWatches(me, Trying, h, polls);
    AfterAppend(me, Trying, w, read);
    AfterOne(me, Watching, Optional(fenced, FENCE_R_RW), [Load(SHARED, total)]);
    AfterOne(me, Watching, Load(SHARED, total), []);
    assert [Load(SHARED, total)] + [] == [Load(SHARED, total)];
  }

  /** Core 1 from its park loop to its done flag is a worker. */
  lemma AnyJobIsWorker(polls: nat, f: Word, rounds: seq<Round>)
    requires RealSpins(rounds)
    ensures Worker(1, ParkTrace(polls, f) + (LoopTrace(rounds) + DoneTrace(1)))
  {
    var t := LoopTrace(rounds);
    ParkKeepsTrying(1, polls, f);
    AfterAppend(1, Trying, ParkTrace(polls, f), t + DoneTrace(1));
    LoopEndsTrying(1, rounds);
    AfterAppend(1, Trying, t, DoneTrace(1));
    AfterOne(1, Trying, Fence(false, true, false, true), [Store(Flag(1), 1)]);
    AfterOne(1, Closing, Store(Flag(1), 1), []);
    assert [Store(Flag(1), 1)] + [] == [Store(Flag(1), 1)];
    PointIsAfter(1, ParkTrace(polls, f) + (t + DoneTrace(1)));
  }

  // ---- Contended executions ----

  /** All harts are outside the section and the lock is free. */
  ghost predicate Rest(x: Execution) {
    && Sequential(x) && Final(x, LOCK) == 0
    && forall h | 0 <= h < |x.prog| :: PointAt(h, x.prog[h], |x.prog[h]|) == Trying
  }

  lemma PointThen(h: nat, t: Trace, op: Op)
    ensures PointAt(h, t + [op], |t| + 1) == Next(h, PointAt(h, t, |t|), op)
  {
    PointOfPrefix(h, t, [op], |t|);
  }

  /** One operation of hart h, which reads memory. */
  lemma OneStep(x: Execution, h: nat, op: Op)
    requires Sequential(x) && h < |x.prog| && (Reads(op) ==> ReadValue(op) == Final(x, op.a))
    ensures var y := Then(x, h, op);
      && Sequential(y) && |y.prog| == |x.prog|
      && Final(y, LOCK) == Written(op, LOCK, Final(x, LOCK))
      && Final(y, SHARED) == Written(op, SHARED, Final(x, SHARED))
      && PointAt(h, y.prog[h], |y.prog[h]|) == Next(h, PointAt(h, x.prog[h], |x.prog[h]|), op)
      && forall g | 0 <= g < |x.prog| && g != h :: y.prog[g] == x.prog[g]
  {
    ThenSequential(x, h, op);
    PointThen(h, x.prog[h], op);
  }

  /** Hart h takes the lock, hart g finds it held, and hart h enters. */
  function Entering(x: Execution, h: nat, g: nat): (y: Execution)
    requires h < |x.prog| && g < |x.prog|
    ensures |y.prog| == |x.prog|
  {
    Then(Then(Then(x, h, Amo(LOCK, 0, 1)), g, Amo(LOCK, 1, 1)), h, Fence(true, false, true, true))
  }

  /** From the entry of the section to its release. */
  function Finishing(x: Execution, h: nat, v: Word): (y: Execution)
    requires h < |x.prog|
    ensures |y.prog| == |x.prog|
  {
    Releasing(Then(Then(x, h, Load(SHARED, v)), h, Store(SHARED, Plus(v, 1))), h)
  }

  function Releasing(x: Execution, h: nat): (y: Execution)
    requires h < |x.prog|
    ensures |y.prog| == |x.prog|
  {
    Then(Then(x, h, Fence(true, true, false, true)), h, Amo(LOCK, 1, 0))
  }

  lemma Enters(x: Execution, h: nat, g: nat)
    requires Rest(x) && h < |x.prog| && g < |x.prog| && h != g
    ensures var y := Entering(x, h, g);
      && Sequential(y) && y.init == x.init && Final(y, LOCK) == 1 && Final(y, SHARED) == Final(x, SHARED)
      && PointAt(h, y.prog[h], |y.prog[h]|) == Entered && PointAt(g, y.prog[g], |y.prog[g]|) == Trying
      && y.prog[g] == x.prog[g] + [Amo(LOCK, 1, 1)]
      && forall k | 0 <= k < |x.prog| && k != h && k != g :: y.prog[k] == x.prog[k]
  {
    var x1 := Then(x, h, Amo(LOCK, 0, 1));
    OneStep(x, h, Amo(LOCK, 0, 1));
    OneStep(x1, g, Amo(LOCK, 1, 1));
    OneStep(Then(x1, g, Amo(LOCK, 1, 1)), h, Fence(true, false, true, true));
  }

  lemma Finishes(x: Execution, h: nat, v: Word)
    requires Sequential(x) && h < |x.prog| && Final(x, LOCK) == 1 && Final(x, SHARED) == v
    requires PointAt(h, x.prog[h], |x.prog[h]|) == Entered
    ensures var y := Finishing(x, h, v);
      && Sequential(y) && y.init == x.init && Final(y, LOCK) == 0 && Final(y, SHARED) == Plus(v, 1)
      && PointAt(h, y.prog[h], |y.prog[h]|) == Trying
      && forall g | 0 <= g < |x.prog| && g != h :: y.prog[g] == x.prog[g]
  {
    var x4 := Then(x, h, Load(SHARED, v));
    OneStep(x, h, Load(SHARED, v));
    OneStep(x4, h, Store(SHARED, Plus(v, 1)));
    Releases(Then(x4, h, Store(SHARED, Plus(v, 1))), h);
  }

  lemma Releases(x: Execution, h: nat)
    requires Sequential(x) && h < |x.prog| && Final(x, LOCK) == 1
    requires PointAt(h, x.prog[h], |x.prog[h]|) == Stored
    ensures var y := Releasing(x, h);
      && Sequential(y) && y.init == x.init && Final(y, LOCK) == 0 && Final(y, SHARED) == Final(x, SHARED)
      && PointAt(h, y.prog[h], |y.prog[h]|) == Trying
      && forall g | 0 <= g < |x.prog| && g != h :: y.prog[g] == x.prog[g]
  {
    OneStep(x, h, Fence(true, true, false, true));
    OneStep(Then(x, h, Fence(true, true, false, true)), h, Amo(LOCK, 1, 0));
  }

  /** Some amoswap of the hart found the lock held. */
  predicate MetHeld(t: Trace) { Amo(LOCK, 1, 1) in t }

  lemma ContendedSection(x: Execution, h: nat, g: nat)
    requires Rest(x) && h < |x.prog| && g < |x.prog| && h != g
    ensures var y := Finishing(Entering(x, h, g), h, Final(x, SHARED));
      && Rest(y) && y.init == x.init && Final(y, SHARED) == Plus(Final(x, SHARED), 1) && MetHeld(y.prog[g])
  {
    Enters(x, h, g);
    Finishes(Entering(x, h, g), h, Final(x, SHARED));
    var y := Finishing(Entering(x, h, g), h, Final(x, SHARED));
    forall k | 0 <= k < |y.prog| ensures PointAt(k, y.prog[k], |y.prog[k]|) == Trying {
      if k != h && k != g { assert y.prog[k] == x.prog[k]; }
    }
  }

  lemma NextSection(y: Execution, h: nat, g: nat, n: nat) returns (x: Execution)
    requires Rest(y) && h < |y.prog| && g < |y.prog| && h != g && Final(y, SHARED) == n % 0x1_0000_0000_0000_0000
    ensures Rest(x) && x.init == y.init && |x.prog| == |y.prog| && MetHeld(x.prog[g])
    ensures Final(x, SHARED) == (n + 1) % 0x1_0000_0000_0000_0000
  {
    ContendedSection(y, h, g);
    x := Finishing(Entering(y, h, g), h, Final(y, SHARED));
    SuccMod(n);
  }

  /** For every sequence of holders, each with a rival, there is an execution in which the harts hold the lock in that
      order and each rival meets the lock held; the variable ends at the length of the sequence. */
  lemma {:induction false} AnyScheduleRuns(harts: nat, order: seq<(nat, nat)>) returns (x: Execution)
    requires forall k | 0 <= k < |order| :: order[k].0 < harts && order[k].1 < harts && order[k].0 != order[k].1
    ensures Rest(x) && LockRun(x) && |x.prog| == harts && Final(x, SHARED) == |order| % 0x1_0000_0000_0000_0000
    ensures x.init(LOCK) == 0
    ensures order != [] ==> MetHeld(x.prog[order[|order| - 1].1])
    decreases |order|
  {
    if order == [] {
      x := NotStarted((a: Loc) => 0, harts);
      NotStartedIsSequential((a: Loc) => 0, harts);
    } else {
      var n := |order| - 1;
      var y := AnyScheduleRuns(harts, order[..n]);
      var h, g := order[n].0, order[n].1;
      x := NextSection(y, h, g, n);
    }
    RestIsLockRun(x);
  }

  lemma RestIsLockRun(x: Execution)
    requires Rest(x) && x.init(LOCK) == 0
    ensures LockRun(x)
  {
    SequentialIsAllowed(x);
    forall h | 0 <= h < |x.prog| ensures Worker(h, x.prog[h]) { assert PointAt(h, x.prog[h], |x.prog[h]|) == Trying; }
  }
}
