/** The atomic stress test (P4.2) under RVWMO: any number of harts add one to a word with amoadd.d, any number of
    times, with no ordering at all between the adds and the rest of what the harts do. The word always counts the
    adds; a read of the total at the end needs two fences that the test does not have. */
module AtomicCounter {
  import opened Words
  import opened Rvwmo
  import opened Handshake
  import opened Clearing

  const COUNTER: Loc := 0
  const DONE: Loc := 1
  const MAILBOX: Loc := 2

  predicate IsAdd(op: Op) { op.Amo? && op.a == COUNTER }

  /** Only amoadd.d of 1 writes the counter; loads, fences and other words are free. */
  predicate Adder(t: Trace) {
    forall i | 0 <= i < |t| && Writes(t[i]) && t[i].a == COUNTER :: t[i].Amo? && t[i].next == Plus(t[i].was, 1)
  }

  ghost predicate AddRun(x: Execution) {
    Allowed(x) && forall h {:trigger x.prog[h]} | 0 <= h < |x.prog| :: Adder(x.prog[h])
  }

  function Adds(): Choice { (h: nat, i: nat, op: Op) => Writes(op) && op.a == COUNTER }

  lemma AddsKeepOrder(x: Execution)
    requires AddRun(x)
    ensures InProgramOrder(x, Adds())
  {
    forall m: nat, n: nat | m < |x.gmo| && n < |x.gmo| && x.gmo[m].hart == x.gmo[n].hart && x.gmo[m].i < x.gmo[n].i
        && Chosen(x, Adds(), m) && Chosen(x, Adds(), n)
      ensures m < n
    {
      assert Preserved(x.prog[x.gmo[m].hart], x.gmo[m].i, x.gmo[n].i);
    }
  }

  /** The word counts the adds performed so far, at every moment. */
  lemma {:induction false} CounterCounts(x: Execution, k: nat)
    requires AddRun(x) && k <= |x.gmo|
    ensures Memory(x, k, COUNTER) == Plus(x.init(COUNTER), Performed(x, k, IsAdd))
    decreases k
  {
    if k > 0 {
      CounterCounts(x, k - 1);
      if Writes(At(x, k - 1)) && At(x, k - 1).a == COUNTER {
        AddsKeepOrder(x);
        assert IsAdd(At(x, k - 1)) && Chosen(x, Adds(), k - 1);
        ChosenLoadReadsMemory(x, Adds(), k - 1);
        PlusOne(x.init(COUNTER), Performed(x, k - 1, IsAdd));
      }
    }
  }

  /** Each amoadd returns the number of adds performed before it: a ticket, unique until the word wraps. */
  lemma AddsTakeTickets(x: Execution, k: nat)
    requires AddRun(x) && k < |x.gmo| && IsAdd(At(x, k))
    ensures At(x, k).was == Plus(x.init(COUNTER), Performed(x, k, IsAdd))
  {
    CounterCounts(x, k);
    AddsKeepOrder(x);
    assert Chosen(x, Adds(), k);
    ChosenLoadReadsMemory(x, Adds(), k);
  }

  /** The initial value plus the adds of all the programs. */
  function Total(x: Execution): Word {
    Plus(x.init(COUNTER), Sum(seq(|x.prog|, h requires 0 <= h < |x.prog| => Count(x.prog[h], |x.prog[h]|, IsAdd))))
  }

  /** The final value is the total: no add is lost. */
  lemma NoAddLost(x: Execution)
    requires AddRun(x)
    ensures Memory(x, |x.gmo|, COUNTER) == Total(x)
  {
    CounterCounts(x, |x.gmo|);
    AddsKeepOrder(x);
    PerformedInAll(x, Adds(), IsAdd);
  }

  // ---- The read of the total ----

  /** A load behind its own hart's adds that is announced the others' (their adds, fence w,w, done flag; the load of
      the flag, fence r,rw) reads the total, in every execution. */
  lemma FencedReadIsTotal(x: Execution, n: nat)
    requires AddRun(x) && n < |x.gmo| && At(x, n).Load? && At(x, n).a == COUNTER
    requires AllAnnounced(x, n, COUNTER)
    requires forall j: nat | j < |x.prog[x.gmo[n].hart]| && IsAdd(x.prog[x.gmo[n].hart][j]) :: j < x.gmo[n].i
    ensures At(x, n).v == Total(x)
  {
    assert Adder(x.prog[x.gmo[n].hart]);
    FinalRead(x, n);
    NoAddLost(x);
  }

  /** The test with both fences: hart 1 raises its done flag behind fence w,w and its adds, hart 0 loads the total at
      j behind its own adds, the flag seen raised at i and fence r,rw at k. The assertion of the total holds. */
  lemma FencedTestPasses(x: Execution, i: nat, k: nat, j: nat)
    requires AddRun(x) && |x.prog| == 2 && x.init(DONE) == 0
    requires forall d: nat {:trigger Raises(x.prog[0], d, DONE, 1)} :: !Raises(x.prog[0], d, DONE, 1)
    requires forall s: nat, d: nat {:trigger BehindStores(x.prog[1], s, d)} |
               s < |x.prog[1]| && IsAdd(x.prog[1][s]) && Raises(x.prog[1], d, DONE, 1) :: BehindStores(x.prog[1], s, d)
    requires i < k < j < |x.prog[0]| && x.prog[0][i] == Load(DONE, 1) && x.prog[0][k] == FENCE_R_RW
    requires x.prog[0][j].Load? && x.prog[0][j].a == COUNTER
    requires forall s: nat | s < |x.prog[0]| && IsAdd(x.prog[0][s]) :: s < j
    ensures x.prog[0][j].v == Total(x)
  {
    var m, n := Position(x, Event(0, i)), Position(x, Event(0, j));
    assert SawStore(x, m);
    forall s: nat | s < |x.gmo| && Writes(At(x, s)) && At(x, s).a == COUNTER && x.gmo[s].hart != 0
      ensures Announced(x, s, n)
    {
      assert Adder(x.prog[1]);
      assert IsAdd(x.prog[1][x.gmo[s].i]);
    }
    FencedReadIsTotal(x, n);
  }

  /** The test with one add on each hart and either fence present or not; without both, the last load may miss the
      other hart's add. */
  function LateRun(announced: bool, awaited: bool): Execution {
    Execution(
      (a: Loc) => 0,
      [[Amo(COUNTER, 0, 1), Load(DONE, 1), Optional(awaited, FENCE_R_RW), Load(COUNTER, 1)],
       [Amo(COUNTER, 1, 2), Optional(announced, FENCE_W_W), Store(DONE, 1)]],
      if announced then [Event(0, 0), Event(0, 3), Event(1, 0), Event(1, 2), Event(0, 1)]   // the load performs early
      else [Event(0, 0), Event(1, 2), Event(0, 1), Event(0, 3), Event(1, 0)])               // the add performs late
  }

  lemma LateOrder(announced: bool, awaited: bool)
    ensures IsOrder(LateRun(announced, awaited))
  {
    var x := LateRun(announced, awaited);
    forall e | IsEvent(x, e) ensures e in x.gmo {
      assert e == x.gmo[0] || e == x.gmo[1] || e == x.gmo[2] || e == x.gmo[3] || e == x.gmo[4];
    }
  }

  /** The one pair out of program order: the two loads of hart 0, or the add and the flag of hart 1. */
  lemma LateReorders(announced: bool, awaited: bool)
    requires !announced || !awaited
    ensures IsOrder(LateRun(announced, awaited)) && ReordersUnordered(LateRun(announced, awaited))
  {
    var x := LateRun(announced, awaited);
    LateOrder(announced, awaited);
    assert announced ==> Unordered(x.prog[0], 1, 3);
    assert !announced ==> Unordered(x.prog[1], 0, 2);
    forall m: nat, n: nat | n < m < |x.gmo| && x.gmo[m].hart == x.gmo[n].hart && x.gmo[m].i < x.gmo[n].i
      ensures Unordered(x.prog[x.gmo[m].hart], x.gmo[m].i, x.gmo[n].i)
    {
      assert m == 4 && n == 1;
    }
  }

  lemma LateReads(announced: bool, awaited: bool, m: nat)
    requires (!announced || !awaited) && m < 5
    ensures IsOrder(LateRun(announced, awaited))
    ensures Reads(At(LateRun(announced, awaited), m)) ==> LoadValue(LateRun(announced, awaited), m)
  {
    var x := LateRun(announced, awaited);
    LateOrder(announced, awaited);
    if m == 0 {
      assert forall n: nat | n < |x.gmo| :: !Visible(x, n, 0);
    } else if announced {
      if m == 1 || m == 2 { assert ReturnsFrom(x, 0, m); }
      if m == 4 { assert ReturnsFrom(x, 3, 4); }
    } else {
      if m == 2 { assert ReturnsFrom(x, 1, 2); }
      if m == 3 || m == 4 { assert ReturnsFrom(x, 0, m); }
    }
  }

  lemma LateGenuine(announced: bool, awaited: bool)
    requires !announced || !awaited
    ensures Genuine(LateRun(announced, awaited)) && Allowed(LateRun(announced, awaited))
  {
    var x := LateRun(announced, awaited);
    LateReorders(announced, awaited);
    forall m: nat | m < |x.gmo| && Reads(At(x, m)) ensures LoadValue(x, m) { LateReads(announced, awaited, m); }
    GenuineIsAllowed(x);
  }

  lemma LateMemory(announced: bool, awaited: bool)
    ensures IsOrder(LateRun(announced, awaited)) && Memory(LateRun(announced, awaited), 5, COUNTER) == 2
  {
    LateOrder(announced, awaited);
    MemoryIsLatest(LateRun(announced, awaited), 5, COUNTER, if announced then 2 else 4);
  }

  lemma TotalIsMemory(x: Execution, v: Word)
    requires AddRun(x) && Memory(x, |x.gmo|, COUNTER) == v
    ensures Total(x) == v
  {
    NoAddLost(x);
  }

  lemma LateAdds(announced: bool, awaited: bool)
    requires !announced || !awaited
    ensures AddRun(LateRun(announced, awaited)) && |LateRun(announced, awaited).gmo| == 5
  {
    LateGenuine(announced, awaited);
  }

  lemma LateTotal(announced: bool, awaited: bool)
    requires !announced || !awaited
    ensures Total(LateRun(announced, awaited)) == 2
  {
    LateAdds(announced, awaited);
    LateMemory(announced, awaited);
    TotalIsMemory(LateRun(announced, awaited), 2);
  }

  /** Without either fence, and so in the test, hart 0 sees the done flag and reads 1 where the total is 2. */
  lemma UnfencedReadMissesAdd(announced: bool, awaited: bool)
    requires !announced || !awaited
    ensures var x := LateRun(announced, awaited);
      && Genuine(x) && AddRun(x) && Total(x) == 2
      && x.prog[0][1] == Load(DONE, 1) && x.prog[0][3] == Load(COUNTER, 1)
  {
    LateGenuine(announced, awaited);
    LateAdds(announced, awaited);
    LateTotal(announced, awaited);
  }

  // ---- The clearing of the counter ----

  /** The test from `g_p4 = 0` on: hart 0 clears the counter and posts the job behind a fence w,w; setting the clearing
      stores aside, only adds write the counter. */
  ghost predicate ClearedRun(x: Execution, p: Prologue) {
    && Posts(x, p, MAILBOX) && Within(x, p) && COUNTER < p.spare && Cleared(x, p, COUNTER)
    && forall h {:trigger x.prog[h]} | 0 <= h < |x.prog| :: Adder(MovedTrace(p, h, x.prog[h]))
  }

  /** The job of the test: behind the call through the mailbox word, atomic adds and stores only. */
  ghost predicate AddingJobs(x: Execution)
    requires IsOrder(x)
  {
    forall h: nat, i: nat {:trigger x.prog[h][i]} |
      0 < h < |x.prog| && i < |x.prog[h]| && IsMem(x.prog[h][i]) && x.prog[h][i].a != MAILBOX ::
      Writes(x.prog[h][i]) && Called(x, h, i, MAILBOX)
  }

  lemma RunFromCleared(x: Execution, p: Prologue)
    requires ClearedRun(x, p) && AddingJobs(x)
    ensures AddRun(FromCleared(x, p)) && FromCleared(x, p).init(COUNTER) == 0
    ensures Memory(x, |x.gmo|, COUNTER) == Memory(FromCleared(x, p), |x.gmo|, COUNTER)
  {
    StoringJobs(x, p, MAILBOX);
    PostOrdersClearing(x, p, MAILBOX);
    FromClearedAllowed(x, p);
    SameMemory(x, p, |x.gmo|, COUNTER);
  }

  /** With the fence w,w alone the counter ends at the number of adds, whatever it held before. */
  lemma NoAddLostAfterClearing(x: Execution, p: Prologue)
    requires ClearedRun(x, p) && AddingJobs(x)
    ensures AddRun(FromCleared(x, p)) && FromCleared(x, p).init(COUNTER) == 0
    ensures Memory(x, |x.gmo|, COUNTER) == Total(FromCleared(x, p))
  {
    RunFromCleared(x, p);
    NoAddLost(FromCleared(x, p));
  }

  /** The whole test with the three fences it lacks (w,w before the post, w,w before the done flag, r,rw behind it),
      from any memory: the assertion of the total holds. */
  lemma ClearedTestPasses(x: Execution, p: Prologue, i: nat, k: nat, j: nat)
    requires ClearedRun(x, p) && AddingJobs(x) && |x.prog| == 2 && Cleared(x, p, DONE)
    requires forall d: nat {:trigger Raises(x.prog[0], d, DONE, 1)} :: !Raises(x.prog[0], d, DONE, 1)
    requires forall s: nat, d: nat {:trigger BehindStores(x.prog[1], s, d)} |
               s < |x.prog[1]| && IsAdd(x.prog[1][s]) && Raises(x.prog[1], d, DONE, 1) :: BehindStores(x.prog[1], s, d)
    requires i < k < j < |x.prog[0]| && x.prog[0][i] == Load(DONE, 1) && x.prog[0][k] == FENCE_R_RW
    requires x.prog[0][j].Load? && x.prog[0][j].a == COUNTER
    requires forall s: nat | s < |x.prog[0]| && IsAdd(x.prog[0][s]) :: s < j
    ensures x.prog[0][j].v == Total(FromCleared(x, p))
  {
    var y := FromCleared(x, p);
    RunFromCleared(x, p);
    assert y.prog[0] == MovedTrace(p, 0, x.prog[0]) && y.prog[1] == MovedTrace(p, 1, x.prog[1]);
    assert y.prog[1] == x.prog[1];
    forall d: nat ensures !Raises(y.prog[0], d, DONE, 1) { assert !Raises(x.prog[0], d, DONE, 1); }
    FencedTestPasses(y, i, k, j);
  }

  /** The test without the fence w,w before the post, with or without a fence r,rw behind the job's start. */
  function LateClear(awaited: bool): Execution {
    Execution(
      (a: Loc) => 0,
      [[Store(COUNTER, 0), Store(MAILBOX, 1), FENCE_W_W, Amo(COUNTER, 0, 1)],
       [Load(MAILBOX, 1), Load(MAILBOX, 1), Optional(awaited, FENCE_R_RW), Amo(COUNTER, 0, 1)]],
      [Event(0, 1), Event(1, 0), Event(1, 1), Event(1, 3), Event(0, 0), Event(0, 3)])
  }

  lemma LateClearOrder(awaited: bool)
    ensures IsOrder(LateClear(awaited))
  {
    var x := LateClear(awaited);
    forall e | IsEvent(x, e) ensures e in x.gmo {
      assert e.hart == 0 ==> e == x.gmo[0] || e == x.gmo[4] || e == x.gmo[5];
      assert e.hart == 1 ==> e == x.gmo[1] || e == x.gmo[2] || e == x.gmo[3];
    }
  }

  lemma LateClearReorders(awaited: bool)
    ensures IsOrder(LateClear(awaited)) && ReordersUnordered(LateClear(awaited))
  {
    var x := LateClear(awaited);
    LateClearOrder(awaited);
    assert Unordered(x.prog[0], 0, 1);
    forall m: nat, n: nat | n < m < |x.gmo| && x.gmo[m].hart == x.gmo[n].hart && x.gmo[m].i < x.gmo[n].i
      ensures Unordered(x.prog[x.gmo[m].hart], x.gmo[m].i, x.gmo[n].i)
    {
      assert n == 0 && m == 4;
    }
  }

  lemma LateClearReads(awaited: bool, m: nat)
    requires IsOrder(LateClear(awaited)) && m < 6 && Reads(At(LateClear(awaited), m))
    ensures LoadValue(LateClear(awaited), m)
  {
    var x := LateClear(awaited);
    if m == 3 {
      assert forall n: nat | n < |x.gmo| :: !Visible(x, n, 3);
    } else if m == 5 {
      assert ReturnsFrom(x, 4, 5);
    } else {
      assert ReturnsFrom(x, 0, m);
    }
  }

  /** Core 1's add performs, then core 0's clearing store, then core 0's add: memory itself ends at 1 after two adds,
      and neither a fence in front of the job nor one in front of the last read can help. */
  lemma UnfencedClearLosesAdd(awaited: bool)
    ensures var x := LateClear(awaited);
      && Genuine(x) && |x.gmo| == 6 && IsAdd(x.prog[0][3]) && IsAdd(x.prog[1][3]) && Controls(x, 1, 1)
      && Memory(x, 6, COUNTER) == 1
  {
    var x := LateClear(awaited);
    LateClearReorders(awaited);
    forall m: nat | m < |x.gmo| && Reads(At(x, m)) ensures LoadValue(x, m) { LateClearReads(awaited, m); }
    GenuineControls(x, 1, 1);
    MemoryIsLatest(x, 6, COUNTER, 5);
  }
}
