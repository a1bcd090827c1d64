/** The amoswap spinlock of the dual-core test (P4.3), for any number of harts and any loop counts, under RVWMO:
    the two fences make every hart's operations perform in program order, hence mutual exclusion and no lost update. */
module SpinLock {
  import opened Words
  import opened Rvwmo
  import opened Handshake
  import opened Clearing

  const LOCK: Loc := 0
  const SHARED: Loc := 1

  const MAILBOX: Loc := 2

  /** Hart h's done flag. */
  function Flag(h: nat): Loc { 3 + h }

  /** Where a hart stands in `spinlock_acquire; temp = shared_var; shared_var = temp + 1; spinlock_release`, and
      after its loop: announcing that it is done, or watching for the others and reading the total. */
  datatype Point =
    | Trying | Acquired | Entered | Loaded(v: Word) | Stored | Leaving
    | Watching | Closing | Closed
    | Astray

  /** Clearing other words, posting or taking the job, and fences: what surrounds the loop. */
  predicate Idle(op: Op) {
    || op.Fence?
    || (op.Store? && op.a >= 2 && (op.v == 0 || op.a == MAILBOX))
    || (op.Load? && op.a == MAILBOX)
  }

  /** Outside the critical section. */
  function Outside(op: Op): Point {
    if op.Amo? && op.a == LOCK && op.next == 1 then (if op.was != 0 then Trying else Acquired)
    else if op == FENCE_W_W then Closing
    else if Idle(op) then Trying
    else if op.Load? && op.a > MAILBOX then Watching
    else Astray
  }

  function Next(me: nat, s: Point, op: Op): Point {
    match s
    case Trying => Outside(op)
    case Acquired => if op == FENCE_R_RW then Entered else Astray
    case Entered => if op.Load? && op.a == SHARED then Loaded(op.v) else Astray
    case Loaded(v) => if op == Store(SHARED, Succ(v)) then Stored else Astray
    case Stored => if op == Fence(true, true, false, true) then Leaving else Astray      // fence rw, w
    case Leaving => if op.Amo? && op.a == LOCK && op.next == 0 then Trying else Astray
    // right behind a fence w,w: core1_lock_done = 1, or more
    case Closing => if op == Store(Flag(me), 1) then Closed else Outside(op)
    // spin_wait(&core1_lock_done, 1), a fence if there is one, and the read of shared_var
    case Watching => if op.Fence? || (op.Load? && op.a != LOCK) then Watching else Astray
    case _ => Astray
  }

  /** In the loop or around it, before it ends. */
  predicate Looping(s: Point) { !s.Watching? && !s.Closed? && !s.Astray? }

  function PointAt(me: nat, t: Trace, n: nat): Point
    requires n <= |t|
  {
    if n == 0 then Trying else Next(me, PointAt(me, t, n - 1), t[n - 1])
  }

  /** A trace of the worker, stopped anywhere; the values read are whatever memory returned. */
  predicate Worker(me: nat, t: Trace) { PointAt(me, t, |t|) != Astray }

  lemma {:induction false} NeverAstray(me: nat, t: Trace, n: nat)
    requires Worker(me, t) && n <= |t|
    ensures PointAt(me, t, n) != Astray
    decreases |t| - n
  {
    if n < |t| { NeverAstray(me, t, n + 1); }
  }

  /** A hart that has left its loop stays out. */
  lemma {:induction false} LoopingBefore(me: nat, t: Trace, i: nat, j: nat)
    requires Worker(me, t) && i <= j <= |t| && Looping(PointAt(me, t, j))
    ensures Looping(PointAt(me, t, i))
    decreases j
  {
    NeverAstray(me, t, i);
    if i < j { LoopingBefore(me, t, i, j - 1); }
  }

  ghost predicate LockRun(x: Execution) {
    && Allowed(x) && x.init(LOCK) == 0
    && forall h {:trigger Worker(h, x.prog[h])} | 0 <= h < |x.prog| :: Worker(h, x.prog[h])
  }

  // ---- The fences restore program order ----

  /** The operations of the loops. The read of the total at the end is not among them: nothing orders it. */
  function InLoops(prog: seq<Trace>): Choice { (h: nat, i: nat, op: Op) => InLoop(prog, h, i, op) }

  predicate InLoop(prog: seq<Trace>, h: nat, i: nat, op: Op) {
    IsMem(op) && op.a <= SHARED && (Writes(op) || LoopAt(prog, h, i))
  }

  predicate LoopAt(prog: seq<Trace>, h: nat, i: nat) {
    h < |prog| && i <= |prog[h]| && Looping(PointAt(h, prog[h], i))
  }

  /** In a worker's trace they are what it does in its loop, fences aside. */
  lemma LoopOps(me: nat, t: Trace, i: nat)
    requires Worker(me, t) && i < |t| && IsMem(t[i]) && t[i].a <= SHARED
    ensures Writes(t[i]) ==> Looping(PointAt(me, t, i))
    ensures Looping(PointAt(me, t, i)) ==> Next(me, PointAt(me, t, i), t[i]) == PointAt(me, t, i + 1) != Astray
  {
    NeverAstray(me, t, i);
    NeverAstray(me, t, i + 1);
  }

  predicate Between(s: Point) { s.Trying? || s.Closing? }

  /** Operation i of a trace is one of the loop's. */
  predicate LoopOp(me: nat, t: Trace, i: nat) {
    i < |t| && IsMem(t[i]) && t[i].a <= SHARED && Looping(PointAt(me, t, i))
  }

  /** Until the next operation of the loop, a hart between two critical sections stays between them. */
  lemma {:induction false} IdlesUntil(me: nat, t: Trace, i: nat, j: nat)
    requires Worker(me, t) && i <= j <= |t| && Between(PointAt(me, t, i)) && Looping(PointAt(me, t, j))
    requires forall k: nat | i <= k < j :: !LoopOp(me, t, k)
    ensures Between(PointAt(me, t, j))
    decreases j
  {
    if i < j {
      LoopingBefore(me, t, j - 1, j);
      IdlesUntil(me, t, i, j - 1);
      assert !LoopOp(me, t, j - 1);
    }
  }

  /** Consecutive operations of the loop are ordered: by address within the lock and the variable, by the fences
      between them. */
  lemma NeighboursPreserved(me: nat, t: Trace, i: nat, j: nat)
    requires Worker(me, t) && i < j && LoopOp(me, t, i) && LoopOp(me, t, j)
    requires forall k: nat | i < k < j :: !LoopOp(me, t, k)
    ensures Preserved(t, i, j)
  {
    LoopingBefore(me, t, i + 1, j);
    AfterLoopOp(me, t, i);
    if Between(PointAt(me, t, i + 1)) {
      IdlesUntil(me, t, i + 1, j);
      LockOnly(me, t, j);
    } else if IsMem(t[i + 1]) {
      MemoryOfSection(me, t, i + 1, j);
      assert j == i + 1;
      SameWord(me, t, i);
    } else {
      MemoryBehindFence(me, t, i, j);
    }
  }

  /** After an operation of the loop a hart is between sections only if it was an amoswap of the lock. */
  lemma AfterLoopOp(me: nat, t: Trace, i: nat)
    requires Worker(me, t) && LoopOp(me, t, i)
    ensures Between(PointAt(me, t, i + 1)) ==> t[i].Amo? && t[i].a == LOCK
  {
    NeverAstray(me, t, i + 1);
  }

  lemma LockOnly(me: nat, t: Trace, j: nat)
    requires Worker(me, t) && LoopOp(me, t, j) && Between(PointAt(me, t, j))
    ensures t[j].Amo? && t[j].a == LOCK
  {
    NeverAstray(me, t, j + 1);
  }

  /** Inside a section all memory operations are the loop's. */
  lemma MemoryOfSection(me: nat, t: Trace, k: nat, j: nat)
    requires Worker(me, t) && k <= j < |t| && Looping(PointAt(me, t, j)) && !Between(PointAt(me, t, k)) && IsMem(t[k])
    ensures LoopOp(me, t, k)
  {
    LoopingBefore(me, t, k, j);
    NeverAstray(me, t, k + 1);
  }

  lemma SameWord(me: nat, t: Trace, i: nat)
    requires Worker(me, t) && LoopOp(me, t, i) && i + 1 < |t| && LoopOp(me, t, i + 1) && !Between(PointAt(me, t, i + 1))
    ensures t[i].a == t[i + 1].a && Writes(t[i + 1])
  {
    NeverAstray(me, t, i + 1);
    NeverAstray(me, t, i + 2);
    assert PointAt(me, t, i + 1) == Next(me, PointAt(me, t, i), t[i]);
  }

  lemma MemoryBehindFence(me: nat, t: Trace, i: nat, j: nat)
    requires Worker(me, t) && i + 1 < j && LoopOp(me, t, i) && LoopOp(me, t, j)
    requires !Between(PointAt(me, t, i + 1)) && t[i + 1].Fence?
    requires forall k: nat | i < k < j :: !LoopOp(me, t, k)
    ensures Preserved(t, i, j)
  {
    LoopingBefore(me, t, i + 2, j);
    FenceOfLoop(me, t, i);
    if i + 2 < j { MemoryOfSection(me, t, i + 2, j); }
    assert j == i + 2;
    assert Fenced(t, i, i + 1, j);
  }

  /** A fence inside a section stands behind the acquiring amoswap or the store, and a memory operation follows it:
      the releasing amoswap in the second case. */
  lemma FenceOfLoop(me: nat, t: Trace, i: nat)
    requires Worker(me, t) && i + 2 < |t| && LoopOp(me, t, i) && t[i + 1].Fence? && Looping(PointAt(me, t, i + 2))
    requires !Between(PointAt(me, t, i + 1))
    ensures !Between(PointAt(me, t, i + 2))
    ensures (t[i].Amo? && t[i + 1] == FENCE_R_RW && IsMem(t[i + 2]))
         || (t[i].Store? && t[i + 1] == Fence(true, true, false, true) && t[i + 2].Amo?)
  {
    LoopingBefore(me, t, i + 1, i + 2);
    NeverAstray(me, t, i + 3);
    LoopFence(me, PointAt(me, t, i), t[i], t[i + 1], t[i + 2]);
    assert PointAt(me, t, i + 1) == Next(me, PointAt(me, t, i), t[i]);
    assert PointAt(me, t, i + 2) == Next(me, PointAt(me, t, i + 1), t[i + 1]);
    assert PointAt(me, t, i + 3) == Next(me, PointAt(me, t, i + 2), t[i + 2]);
  }

  lemma LoopFence(me: nat, s: Point, a: Op, f: Op, b: Op)
    ensures var s1 := Next(me, s, a); var s2 := Next(me, s1, f);
      && Looping(s) && Looping(s1) && Looping(s2) && !Between(s1) && Next(me, s2, b) != Astray
      && IsMem(a) && a.a <= SHARED && f.Fence? ==>
        && !Between(s2)
        && ((a.Amo? && f == FENCE_R_RW && IsMem(b))
            || (a.Store? && f == Fence(true, true, false, true) && b.Amo?))
  {
  }

  function PreviousLoopOp(me: nat, t: Trace, i: nat, j: nat): (k: nat)
    requires i < j < |t| && LoopOp(me, t, i)
    ensures i <= k < j && LoopOp(me, t, k) && forall m: nat | k < m < j :: !LoopOp(me, t, m)
  {
    if LoopOp(me, t, j - 1) then j - 1 else PreviousLoopOp(me, t, i, j - 1)
  }

  lemma {:induction false} InOrder(x: Execution, m: nat, n: nat)
    requires LockRun(x) && m < |x.gmo| && n < |x.gmo|
    requires x.gmo[m].hart == x.gmo[n].hart && x.gmo[m].i < x.gmo[n].i
    requires LoopOp(x.gmo[m].hart, x.prog[x.gmo[m].hart], x.gmo[m].i)
    requires LoopOp(x.gmo[n].hart, x.prog[x.gmo[n].hart], x.gmo[n].i)
    ensures m < n
    decreases x.gmo[n].i - x.gmo[m].i
  {
    var h, i, j := x.gmo[m].hart, x.gmo[m].i, x.gmo[n].i;
    var k := PreviousLoopOp(h, x.prog[h], i, j);
    NeighboursPreserved(h, x.prog[h], k, j);
    var p := Position(x, Event(h, k));
    assert Preserved(x.prog[x.gmo[p].hart], x.gmo[p].i, x.gmo[n].i);
    if k != i { InOrder(x, m, p); }
  }

  /** The acquire and release fences leave no reordering: each hart's loop performs in program order. */
  lemma FencesRestoreProgramOrder(x: Execution)
    requires LockRun(x)
    ensures InProgramOrder(x, InLoops(x.prog))
  {
    var c := InLoops(x.prog);
    forall h: nat, i: nat, op: Op | op.Fence? ensures !c(h, i, op) { assert !InLoop(x.prog, h, i, op); }
    forall m: nat, n: nat | m < |x.gmo| && n < |x.gmo| && x.gmo[m].hart == x.gmo[n].hart && x.gmo[m].i < x.gmo[n].i
        && Chosen(x, c, m) && Chosen(x, c, n)
      ensures m < n
    {
      LoopOps(x.gmo[m].hart, x.prog[x.gmo[m].hart], x.gmo[m].i);
      LoopOps(x.gmo[n].hart, x.prog[x.gmo[n].hart], x.gmo[n].i);
      InOrder(x, m, n);
    }
  }

  // ---- The invariant along the global memory order ----

  /** The point with everything outside the loop, and the fences, left out. */
  function Stage(s: Point): Point {
    if s == Entered then Acquired
    else if s == Leaving then Stored
    else if s == Watching || s == Closing || s == Closed then Trying
    else s
  }

  predicate StandsStill(me: nat, t: Trace, j: nat) {
    j < |t| && Stage(PointAt(me, t, j + 1)) == Stage(PointAt(me, t, j))
  }

  lemma {:induction false} SameStage(me: nat, t: Trace, d: nat, i: nat)
    requires d <= i <= |t| && forall j: nat | d <= j < i :: StandsStill(me, t, j)
    ensures Stage(PointAt(me, t, i)) == Stage(PointAt(me, t, d))
    decreases i
  {
    if d < i {
      SameStage(me, t, d, i - 1);
      assert StandsStill(me, t, i - 1);
    }
  }

  lemma SkippedAt(prog: seq<Trace>, h: nat, j: nat)
    requires h < |prog| && Worker(h, prog[h]) && j < |prog[h]| && !InLoop(prog, h, j, prog[h][j])
    ensures Stage(PointAt(h, prog[h], j + 1)) == Stage(PointAt(h, prog[h], j))
  {
    SkippedOutside(prog, h, j);
    SkippedStep(h, prog[h], j);
  }

  lemma SkippedOutside(prog: seq<Trace>, h: nat, j: nat)
    requires h < |prog| && Worker(h, prog[h]) && j < |prog[h]| && !InLoop(prog, h, j, prog[h][j])
    ensures !(IsMem(prog[h][j]) && prog[h][j].a <= SHARED && Looping(PointAt(h, prog[h], j)))
  {
  }

  lemma SkippedStep(me: nat, t: Trace, i: nat)
    requires Worker(me, t) && i < |t| && !(IsMem(t[i]) && t[i].a <= SHARED && Looping(PointAt(me, t, i)))
    ensures Stage(PointAt(me, t, i + 1)) == Stage(PointAt(me, t, i))
  {
    NeverAstray(me, t, i);
    NeverAstray(me, t, i + 1);
  }

  /** The stage hart h has reached after k operations of the global memory order. */
  ghost function StageOf(x: Execution, h: nat, k: nat): Point
    requires IsOrder(x) && k <= |x.gmo| && h < |x.prog|
  {
    Stage(PointAt(h, x.prog[h], Done(x, InLoops(x.prog), h, k)))
  }

  /** Between a successful amoswap and the releasing one. */
  predicate Critical(s: Point) { s.Acquired? || s.Entered? || s.Loaded? || s.Stored? || s.Leaving? }

  predicate IsIncrement(op: Op) { op.Store? && op.a == SHARED }

  /** One lock holder at most, exactly while the lock is taken; what it has loaded is the current value. */
  predicate Good(stages: seq<Point>, lock: Word, shared: Word) {
    && (forall h, g | 0 <= h < |stages| && 0 <= g < |stages| && Critical(stages[h]) && Critical(stages[g]) :: h == g)
    && (lock != 0 <==> exists h :: 0 <= h < |stages| && Critical(stages[h]))
    && (forall h | 0 <= h < |stages| && stages[h].Loaded? :: stages[h].v == shared)
  }

  /** One operation of one hart's loop, reading the current memory, keeps the lock discipline. */
  lemma GoodStep(stages: seq<Point>, lock: Word, shared: Word, h: nat, s: Point, op: Op)
    requires Good(stages, lock, shared) && h < |stages| && Stage(s) == stages[h]
    requires Looping(s) && IsMem(op) && op.a <= SHARED && Next(h, s, op) != Astray
    requires Reads(op) ==> ReadValue(op) == (if op.a == LOCK then lock else shared)
    ensures Good(stages[h := Stage(Next(h, s, op))], Written(op, LOCK, lock), Written(op, SHARED, shared))
  {
    var after := stages[h := Stage(Next(h, s, op))];
    if Between(s) && op.was != 0 {
      assert after == stages;
    } else if s.Leaving? {
      assert Critical(stages[h]) && !Critical(after[h]);
    } else {
      assert Critical(after[h]);
    }
  }

  /** The only store to the shared variable adds one to its current value. */
  lemma IncrementsOnly(me: nat, s: Point, op: Op, shared: Word)
    requires Looping(s) && IsMem(op) && op.a <= SHARED && Next(me, s, op) != Astray
    requires s.Loaded? ==> s.v == shared
    ensures Written(op, SHARED, shared) == if IsIncrement(op) then Succ(shared) else shared
  {
  }

  ghost function Stages(x: Execution, k: nat): (s: seq<Point>)
    requires IsOrder(x) && k <= |x.gmo|
    ensures |s| == |x.prog|
  {
    seq(|x.prog|, h requires 0 <= h < |x.prog| => StageOf(x, h, k))
  }

  ghost predicate Invariant(x: Execution, k: nat)
    requires IsOrder(x) && k <= |x.gmo|
  {
    && Good(Stages(x, k), Memory(x, k, LOCK), Memory(x, k, SHARED))
    && Memory(x, k, SHARED) == (x.init(SHARED) + Performed(x, k, IsIncrement)) % WORD_SIZE
  }

  ghost predicate Kept(x: Execution, k: nat)
    requires IsOrder(x) && k < |x.gmo|
  {
    Chosen(x, InLoops(x.prog), k)
  }

  /** The hart of operation k of a loop stands where its trace says. */
  lemma StageBefore(x: Execution, k: nat)
    requires LockRun(x) && k < |x.gmo| && Kept(x, k)
    ensures var h, i := x.gmo[k].hart, x.gmo[k].i;
            Stage(PointAt(h, x.prog[h], i)) == StageOf(x, h, k) && Looping(PointAt(h, x.prog[h], i))
  {
    var h, i, c := x.gmo[k].hart, x.gmo[k].i, InLoops(x.prog);
    FencesRestoreProgramOrder(x);
    DoneBounds(x, c, k, k);
    var d := Done(x, c, h, k);
    forall j: nat | d <= j < i
      ensures StandsStill(h, x.prog[h], j)
    {
      NothingSkipped(x, c, k, j);
      SkippedAt(x.prog, h, j);
    }
    SameStage(h, x.prog[h], d, i);
    LoopOps(h, x.prog[h], i);
  }

  /** It moves on by one operation; the other harts stand still. */
  lemma StageAfter(x: Execution, k: nat)
    requires LockRun(x) && k < |x.gmo| && Kept(x, k)
    ensures var h := x.gmo[k].hart;
            var s := Next(h, PointAt(h, x.prog[h], x.gmo[k].i), At(x, k));
            s != Astray && StageOf(x, h, k + 1) == Stage(s)
  {
    NeverAstray(x.gmo[k].hart, x.prog[x.gmo[k].hart], x.gmo[k].i + 1);
  }

  lemma OthersStand(x: Execution, k: nat, g: nat)
    requires IsOrder(x) && k < |x.gmo| && g < |x.prog| && (g != x.gmo[k].hart || !Kept(x, k))
    ensures StageOf(x, g, k + 1) == StageOf(x, g, k)
  {
  }

  lemma ReadsMemory(x: Execution, k: nat)
    requires LockRun(x) && k < |x.gmo| && Kept(x, k) && Reads(At(x, k))
    ensures ReadValue(At(x, k)) == Memory(x, k, At(x, k).a)
  {
    FencesRestoreProgramOrder(x);
    ChosenLoadReadsMemory(x, InLoops(x.prog), k);
  }

  lemma {:induction false} InvariantHolds(x: Execution, k: nat)
    requires LockRun(x) && k <= |x.gmo|
    ensures Invariant(x, k)
    decreases k
  {
    if k == 0 {
      InvariantStarts(x);
    } else {
      InvariantHolds(x, k - 1);
      AnyStep(x, k - 1);
    }
  }

  lemma AnyStep(x: Execution, k: nat)
    requires LockRun(x) && k < |x.gmo| && Invariant(x, k)
    ensures Invariant(x, k + 1)
  {
    if Kept(x, k) { LoopStep(x, k); } else { OutsideStep(x, k); }
  }

  lemma InvariantStarts(x: Execution)
    requires IsOrder(x) && x.init(LOCK) == 0
    ensures Invariant(x, 0)
  {
    assert forall h | 0 <= h < |x.prog| :: Stages(x, 0)[h] == Trying;
  }

  /** An operation outside the loops writes neither the lock nor the variable. */
  lemma OutsideStep(x: Execution, k: nat)
    requires IsOrder(x) && k < |x.gmo| && Invariant(x, k) && !Kept(x, k)
    ensures Invariant(x, k + 1)
  {
    forall g: nat | g < |x.prog| ensures StageOf(x, g, k + 1) == StageOf(x, g, k) { OthersStand(x, k, g); }
    assert Stages(x, k + 1) == Stages(x, k);
    MemoryStep(x, k);
  }

  lemma LoopStep(x: Execution, k: nat)
    requires LockRun(x) && k < |x.gmo| && Invariant(x, k) && Kept(x, k)
    ensures Invariant(x, k + 1)
  {
    StageBefore(x, k);
    StageAfter(x, k);
    forall g: nat | g < |x.prog| && g != x.gmo[k].hart ensures StageOf(x, g, k + 1) == StageOf(x, g, k) {
      OthersStand(x, k, g);
    }
    if Reads(At(x, k)) { ReadsMemory(x, k); }
    InvariantStep(x, k, PointAt(x.gmo[k].hart, x.prog[x.gmo[k].hart], x.gmo[k].i));
  }

  lemma InvariantStep(x: Execution, k: nat, s: Point)
    requires IsOrder(x) && k < |x.gmo| && Invariant(x, k) && At(x, k).a <= SHARED && Looping(s)
    requires Stage(s) == StageOf(x, x.gmo[k].hart, k) && Next(x.gmo[k].hart, s, At(x, k)) != Astray
    requires StageOf(x, x.gmo[k].hart, k + 1) == Stage(Next(x.gmo[k].hart, s, At(x, k)))
    requires forall g | 0 <= g < |x.prog| && g != x.gmo[k].hart :: StageOf(x, g, k + 1) == StageOf(x, g, k)
    requires Reads(At(x, k)) ==> ReadValue(At(x, k)) == Memory(x, k, At(x, k).a)
    ensures Invariant(x, k + 1)
  {
    StagesStep(x, k, Stage(s), Stage(Next(x.gmo[k].hart, s, At(x, k))));
    GoodAfter(x, k, s);
    CountStays(x, k, s);
  }

  lemma GoodAfter(x: Execution, k: nat, s: Point)
    requires IsOrder(x) && k < |x.gmo| && At(x, k).a <= SHARED && Looping(s)
    requires Good(Stages(x, k), Memory(x, k, LOCK), Memory(x, k, SHARED))
    requires Stage(s) == Stages(x, k)[x.gmo[k].hart] && Next(x.gmo[k].hart, s, At(x, k)) != Astray
    requires Stages(x, k + 1) == Stages(x, k)[x.gmo[k].hart := Stage(Next(x.gmo[k].hart, s, At(x, k)))]
    requires Reads(At(x, k)) ==> ReadValue(At(x, k)) == Memory(x, k, At(x, k).a)
    ensures Good(Stages(x, k + 1), Memory(x, k + 1, LOCK), Memory(x, k + 1, SHARED))
  {
    MemoryStep(x, k);
    GoodStep(Stages(x, k), Memory(x, k, LOCK), Memory(x, k, SHARED), x.gmo[k].hart, s, At(x, k));
  }

  lemma StagesStep(x: Execution, k: nat, before: Point, after: Point)
    requires IsOrder(x) && k < |x.gmo|
    requires StageOf(x, x.gmo[k].hart, k) == before && StageOf(x, x.gmo[k].hart, k + 1) == after
    requires forall g | 0 <= g < |x.prog| && g != x.gmo[k].hart :: StageOf(x, g, k + 1) == StageOf(x, g, k)
    ensures Stages(x, k)[x.gmo[k].hart] == before && Stages(x, k + 1) == Stages(x, k)[x.gmo[k].hart := after]
  {
  }

  lemma CountStays(x: Execution, k: nat, s: Point)
    requires IsOrder(x) && k < |x.gmo| && IsMem(At(x, k)) && At(x, k).a <= SHARED && Looping(s)
    requires Next(x.gmo[k].hart, s, At(x, k)) != Astray && (s.Loaded? ==> s.v == Memory(x, k, SHARED))
    requires Memory(x, k, SHARED) == (x.init(SHARED) + Performed(x, k, IsIncrement)) % WORD_SIZE
    ensures Memory(x, k + 1, SHARED) == (x.init(SHARED) + Performed(x, k + 1, IsIncrement)) % WORD_SIZE
  {
    IncrementsOnly(x.gmo[k].hart, s, At(x, k), Memory(x, k, SHARED));
    SuccMod(x.init(SHARED) + Performed(x, k, IsIncrement));
    MemoryStep(x, k);
  }

  lemma MemoryStep(x: Execution, k: nat)
    requires IsOrder(x) && k < |x.gmo|
    ensures Memory(x, k + 1, LOCK) == Written(At(x, k), LOCK, Memory(x, k, LOCK))
    ensures Memory(x, k + 1, SHARED) == Written(At(x, k), SHARED, Memory(x, k, SHARED))
    ensures Performed(x, k + 1, IsIncrement) == Performed(x, k, IsIncrement) + (if IsIncrement(At(x, k)) then 1 else 0)
  {
  }

  // ---- The theorems ----

  /** At no moment of any execution are two harts between acquiring and releasing the lock. */
  lemma MutualExclusion(x: Execution, k: nat, h: nat, g: nat)
    requires LockRun(x) && k <= |x.gmo| && h < |x.prog| && g < |x.prog|
    requires Critical(StageOf(x, h, k)) && Critical(StageOf(x, g, k))
    ensures h == g
  {
    InvariantHolds(x, k);
    assert Critical(Stages(x, k)[h]) && Critical(Stages(x, k)[g]);
  }

  /** Every holder reads what all the previous holders together have written: one more per increment performed so
      far, never a stale value. */
  lemma HolderReadsLatest(x: Execution, k: nat)
    requires LockRun(x) && k < |x.gmo| && At(x, k).Load? && At(x, k).a == SHARED
    requires LoopAt(x.prog, x.gmo[k].hart, x.gmo[k].i)
    ensures At(x, k).v == (x.init(SHARED) + Performed(x, k, IsIncrement)) % WORD_SIZE
  {
    InvariantHolds(x, k);
    ReadsMemory(x, k);
  }

  /** The initial value plus the increments of all the programs. */
  function Total(x: Execution): Word {
    (x.init(SHARED)
     + Sum(seq(|x.prog|, h requires 0 <= h < |x.prog| => Count(x.prog[h], |x.prog[h]|, IsIncrement)))) % WORD_SIZE
  }

  /** The final value is the total: no update is lost. */
  lemma NoLostUpdate(x: Execution)
    requires LockRun(x)
    ensures Memory(x, |x.gmo|, SHARED) == Total(x)
  {
    InvariantHolds(x, |x.gmo|);
    FencesRestoreProgramOrder(x);
    forall h: nat, i: nat, op: Op | IsIncrement(op) ensures InLoops(x.prog)(h, i, op) {
      assert InLoop(x.prog, h, i, op);
    }
    PerformedInAll(x, InLoops(x.prog), IsIncrement);
  }

  // ---- The read of the total ----

  /** Behind a load that saw hart h's done flag raised, and fence r,rw. */
  ghost predicate SawFlag(t: Trace, j: nat, h: nat) {
    exists i: nat :: i < |t| && t[i] == Load(Flag(h), 1) && BehindLoads(t, i, j)
  }

  /** A worker raises its own flag only, behind fence w,w and all its increments. */
  lemma FlagBehindIncrements(me: nat, t: Trace, s: nat, d: nat)
    requires Worker(me, t) && s < |t| && d < |t| && Writes(t[d]) && t[d].a > MAILBOX && WriteValue(t[d]) != 0
    ensures t[d].a == Flag(me)
    ensures IsIncrement(t[s]) ==> BehindStores(t, s, d)
  {
    NeverAstray(me, t, d);
    NeverAstray(me, t, d + 1);
    assert PointAt(me, t, d) == Closing && PointAt(me, t, d + 1) == Closed;
    assert PointAt(me, t, d) == Next(me, PointAt(me, t, d - 1), t[d - 1]);
    assert t[d - 1] == FENCE_W_W;
    if IsIncrement(t[s]) {
      LoopOps(me, t, s);
      if s > d { LoopingBefore(me, t, d + 1, s); }
      assert s < d - 1 < d;
    }
  }

  lemma OwnFlagOnly(x: Execution, h: nat, s: nat)
    requires LockRun(x) && h < |x.prog| && s < |x.prog[h]| && IsIncrement(x.prog[h][s])
    ensures Announces(x.prog, h, s, Flag(h), 1)
  {
    forall g: nat, d: nat {:trigger Raises(x.prog[g], d, Flag(h), 1)} | g < |x.prog| && Raises(x.prog[g], d, Flag(h), 1)
      ensures g == h && BehindStores(x.prog[h], s, d)
    {
      assert Worker(g, x.prog[g]);
      FlagBehindIncrements(g, x.prog[g], 0, d);
      FlagBehindIncrements(h, x.prog[h], s, d);
    }
  }

  lemma IncrementsAnnounced(x: Execution, s: nat, n: nat)
    requires LockRun(x) && s < |x.gmo| && n < |x.gmo| && Writes(At(x, s)) && At(x, s).a == SHARED
    requires x.init(Flag(x.gmo[s].hart)) == 0 && SawFlag(x.prog[x.gmo[n].hart], x.gmo[n].i, x.gmo[s].hart)
    ensures Announced(x, s, n)
  {
    var h, t := x.gmo[s].hart, x.prog[x.gmo[n].hart];
    var i: nat :| i < |t| && t[i] == Load(Flag(h), 1) && BehindLoads(t, i, x.gmo[n].i);
    var m := Position(x, Event(x.gmo[n].hart, i));
    assert SawStore(x, m);
    IncrementOp(h, x.prog[h], x.gmo[s].i);
    OwnFlagOnly(x, h, x.gmo[s].i);
    assert At(x, m) == Load(Flag(h), 1);
    assert Announces(x.prog, h, x.gmo[s].i, At(x, m).a, At(x, m).v);
  }

  lemma IncrementOp(me: nat, t: Trace, i: nat)
    requires Worker(me, t) && i < |t| && Writes(t[i]) && t[i].a == SHARED
    ensures IsIncrement(t[i])
  {
    NeverAstray(me, t, i);
    NeverAstray(me, t, i + 1);
  }

  /** With fence r,rw between the done flags of all the other harts and the read, the read returns the total, in every
      execution with any number of harts and loops. */
  lemma FencedReadIsTotal(x: Execution, n: nat)
    requires LockRun(x) && n < |x.gmo| && At(x, n).Load? && At(x, n).a == SHARED
    requires !LoopAt(x.prog, x.gmo[n].hart, x.gmo[n].i)
    requires forall h: nat {:trigger Flag(h)} | h < |x.prog| && h != x.gmo[n].hart ::
               x.init(Flag(h)) == 0 && SawFlag(x.prog[x.gmo[n].hart], x.gmo[n].i, h)
    ensures At(x, n).v == Total(x)
  {
    var r := x.gmo[n].hart;
    forall s: nat | s < |x.gmo| && Writes(At(x, s)) && At(x, s).a == SHARED && x.gmo[s].hart != r
      ensures Announced(x, s, n)
    {
      assert x.init(Flag(x.gmo[s].hart)) == 0;
      IncrementsAnnounced(x, s, n);
    }
    forall j: nat | j < |x.prog[r]| && Writes(x.prog[r][j]) && x.prog[r][j].a == SHARED ensures j < x.gmo[n].i {
      LoopOps(r, x.prog[r], j);
      if x.gmo[n].i <= j { LoopingBefore(r, x.prog[r], x.gmo[n].i, j); }
    }
    FinalRead(x, n);
    NoLostUpdate(x);
  }

  /** The test as it is, with one loop on each hart: core 0's read of the total has no fence before it. */
  function LateRun(): Execution {
    Execution(
      (a: Loc) => 0,
      [[Amo(LOCK, 0, 1), FENCE_R_RW, Load(SHARED, 0), Store(SHARED, 1), Fence(true, true, false, true), Amo(LOCK, 1, 0),
        Load(Flag(1), 1), Load(SHARED, 1)],
       [Amo(LOCK, 0, 1), FENCE_R_RW, Load(SHARED, 1), Store(SHARED, 2), Fence(true, true, false, true), Amo(LOCK, 1, 0),
        FENCE_W_W, Store(Flag(1), 1)]],
      [Event(0, 0), Event(0, 2), Event(0, 3), Event(0, 5), Event(0, 7),   // the last load performs early
       Event(1, 0), Event(1, 2), Event(1, 3), Event(1, 5), Event(1, 7), Event(0, 6)])
  }

  /** Where an event of the run stands in its global memory order. */
  function LatePlace(e: Event): nat {
    if e.hart == 0 then
      (if e.i == 0 then 0 else if e.i == 2 then 1 else if e.i == 3 then 2 else if e.i == 5 then 3
       else if e.i == 7 then 4 else 10)
    else
      (if e.i == 0 then 5 else if e.i == 2 then 6 else if e.i == 3 then 7 else if e.i == 5 then 8 else 9)
  }

  lemma LateOrder()
    ensures IsOrder(LateRun())
  {
    var x := LateRun();
    forall n | 0 <= n < |x.gmo| ensures IsEvent(x, x.gmo[n]) && LatePlace(x.gmo[n]) == n { LateEvent(n); }
    forall e | IsEvent(x, e) ensures e in x.gmo { LateComplete(e); }
  }

  lemma LateEvent(n: nat)
    requires n < 11
    ensures IsEvent(LateRun(), LateRun().gmo[n]) && LatePlace(LateRun().gmo[n]) == n
  {
  }

  lemma LateComplete(e: Event)
    requires IsEvent(LateRun(), e)
    ensures LatePlace(e) < 11 && LateRun().gmo[LatePlace(e)] == e
  {
  }

  /** The one pair out of program order: the flag's load and the read behind it. */
  lemma LateReorders()
    ensures IsOrder(LateRun()) && ReordersUnordered(LateRun())
  {
    var x := LateRun();
    LateOrder();
    assert Unordered(x.prog[0], 6, 7);
    forall m: nat, n: nat | n < m < |x.gmo| && x.gmo[m].hart == x.gmo[n].hart && x.gmo[m].i < x.gmo[n].i
      ensures Unordered(x.prog[x.gmo[m].hart], x.gmo[m].i, x.gmo[n].i)
    {
      assert m == 10 && n == 4;
    }
  }

  lemma LateReads(m: nat)
    requires m < 11
    ensures IsOrder(LateRun()) && (Reads(At(LateRun(), m)) ==> LoadValue(LateRun(), m))
  {
    LateOrder();
    if Reads(At(LateRun(), m)) {
      if m <= 4 { LateReads0(m); } else { LateReads1(m); }
    }
  }

  lemma LateReads0(m: nat)
    requires IsOrder(LateRun()) && m <= 4 && Reads(At(LateRun(), m))
    ensures LoadValue(LateRun(), m)
  {
    if m <= 1 { LateReadsFirst(m); } else { LateReadsAgain(m); }
  }

  lemma LateReadsFirst(m: nat)
    requires IsOrder(LateRun()) && m <= 1
    ensures Reads(At(LateRun(), m)) && LoadValue(LateRun(), m)
  {
    assert forall n: nat | n < |LateRun().gmo| :: !Visible(LateRun(), n, m);
  }

  lemma LateReadsAgain(m: nat)
    requires IsOrder(LateRun()) && 2 <= m <= 4 && Reads(At(LateRun(), m))
    ensures LoadValue(LateRun(), m)
  {
    LateStores();
    LateUnlocks();
    LateTotal();
    OneOfThree(LateRun(), m);
  }

  lemma OneOfThree(x: Execution, m: nat)
    requires IsOrder(x) && |x.gmo| > 4 && 2 <= m <= 4 && Reads(At(x, m))
    requires !Reads(At(x, 2)) && Reads(At(x, 3)) && Reads(At(x, 4)) && LoadValue(x, 3) && LoadValue(x, 4)
    ensures LoadValue(x, m)
  {
    assert m != 2;
    if m == 3 { assert LoadValue(x, 3); } else { assert LoadValue(x, 4); }
  }

  lemma LateStores()
    requires IsOrder(LateRun())
    ensures !Reads(At(LateRun(), 2))
  {
  }

  lemma LateUnlocks()
    requires IsOrder(LateRun())
    ensures Reads(At(LateRun(), 3)) && LoadValue(LateRun(), 3)
  {
    assert ReturnsFrom(LateRun(), 0, 3);
  }

  lemma LateTotal()
    requires IsOrder(LateRun())
    ensures Reads(At(LateRun(), 4)) && LoadValue(LateRun(), 4)
  {
    assert ReturnsFrom(LateRun(), 2, 4);
  }

  lemma LateReads1(m: nat)
    requires IsOrder(LateRun()) && 5 <= m < 11 && Reads(At(LateRun(), m))
    ensures LoadValue(LateRun(), m)
  {
    var x := LateRun();
    if m == 5 { assert ReturnsFrom(x, 3, 5); }
    if m == 6 { assert ReturnsFrom(x, 2, 6); }
    if m == 8 { assert ReturnsFrom(x, 5, 8); }
    if m == 10 { assert ReturnsFrom(x, 9, 10); }
  }

  lemma LateIsWorker(h: nat)
    requires h < 2
    ensures Worker(h, LateRun().prog[h])
  {
    var t := LateRun().prog[h];
    assert PointAt(h, t, 1) == Acquired;
    assert PointAt(h, t, 2) == Entered;
    assert PointAt(h, t, 3) == Loaded(h);
    assert PointAt(h, t, 4) == Stored;
    assert PointAt(h, t, 5) == Leaving;
    assert PointAt(h, t, 6) == Trying;
    assert PointAt(h, t, 7) == if h == 0 then Watching else Closing;
  }

  lemma LateGenuine()
    ensures Genuine(LateRun()) && Allowed(LateRun())
  {
    var x := LateRun();
    LateReorders();
    forall m: nat | m < |x.gmo| && Reads(At(x, m)) ensures LoadValue(x, m) { LateReads(m); }
    GenuineIsAllowed(x);
  }

  lemma LateMemory()
    ensures IsOrder(LateRun()) && Memory(LateRun(), 11, SHARED) == 2
  {
    LateOrder();
    MemoryIsLatest(LateRun(), 11, SHARED, 7);
  }

  /** In it core 0 sees the done flag and reads 1 where the total is 2: the assertion can fail. */
  lemma UnfencedReadMissesIncrement()
    ensures var x := LateRun();
      && Genuine(x) && LockRun(x) && Total(x) == 2
      && OpOf(x, Event(0, 6)) == Load(Flag(1), 1) && OpOf(x, Event(0, 7)) == Load(SHARED, 1)
  {
    LateGenuine();
    LateIsWorker(0);
    LateIsWorker(1);
    NoLostUpdate(LateRun());
    LateMemory();
  }

  // ---- The clearing of the lock and the variable ----

  /** The test from `g_p4 = 0` on: hart 0 clears the fields and posts the job behind a fence w,w; setting the clearing
      stores aside, every hart is a worker. */
  ghost predicate ClearedRun(x: Execution, p: Prologue) {
    && Posts(x, p, MAILBOX) && Within(x, p) && SHARED < p.spare && Cleared(x, p, LOCK) && Cleared(x, p, SHARED)
    && forall h {:trigger x.prog[h]} | 0 <= h < |x.prog| :: Worker(h, MovedTrace(p, h, x.prog[h]))
  }

  /** The job of the test: the worker's loop behind the call through the mailbox word; it watches no flag. */
  ghost predicate WorkingJobs(x: Execution)
    requires IsOrder(x)
  {
    forall h: nat, i: nat {:trigger x.prog[h][i]} |
      0 < h < |x.prog| && i < |x.prog[h]| && IsMem(x.prog[h][i]) && x.prog[h][i].a != MAILBOX ::
      Called(x, h, i, MAILBOX) && !(x.prog[h][i].Load? && x.prog[h][i].a > MAILBOX)
  }

  /** A worker that watches no flag loads the variable right behind the acquiring amoswap and its fence. */
  lemma {:induction false} NeverWatches(me: nat, t: Trace, n: nat)
    requires Worker(me, t) && n <= |t| && forall i | 0 <= i < |t| && t[i].Load? :: t[i].a <= MAILBOX
    ensures PointAt(me, t, n) != Watching
    decreases n
  {
    if n > 0 { NeverWatches(me, t, n - 1); }
  }

  lemma LoadBehindAmo(me: nat, t: Trace, i: nat)
    requires Worker(me, t) && i < |t| && t[i].Load? && t[i].a <= SHARED && PointAt(me, t, i) != Watching
    ensures i >= 2 && t[i - 1] == FENCE_R_RW && t[i - 2].Amo? && t[i - 2].a == LOCK
  {
    NeverAstray(me, t, i);
    NeverAstray(me, t, i + 1);
    assert PointAt(me, t, i) == Entered;
    assert PointAt(me, t, i) == Next(me, PointAt(me, t, i - 1), t[i - 1]);
    assert PointAt(me, t, i - 1) == Next(me, PointAt(me, t, i - 2), t[i - 2]);
  }

  lemma JobLoadAfterPost(x: Execution, n: nat)
    requires Allowed(x) && WorkingJobs(x) && n < |x.gmo| && x.gmo[n].hart > 0
    requires At(x, n).Load? && At(x, n).a != MAILBOX && Worker(x.gmo[n].hart, x.prog[x.gmo[n].hart])
    ensures AfterPost(x, MAILBOX, n)
  {
    var h, i := x.gmo[n].hart, x.gmo[n].i;
    var t := x.prog[h];
    NeverWatches(h, t, i);
    LoadBehindAmo(h, t, i);
    var q := Position(x, Event(h, i - 2));
    assert IsMem(x.prog[h][i - 2]);
    CalledStoreAfterPost(x, MAILBOX, q);
    assert Fenced(t, i - 2, i - 1, i);
    assert Preserved(x.prog[x.gmo[q].hart], x.gmo[q].i, x.gmo[n].i);
    var m: nat :| m < q && x.gmo[m].hart == h && SawPost(At(x, m), MAILBOX);
    assert m < n && SawPost(At(x, m), MAILBOX);
  }

  /** The call orders the job's amoswap, and the amoswap with its fence the rest. */
  lemma WorkingJobsAfterPost(x: Execution, p: Prologue)
    requires ClearedRun(x, p) && WorkingJobs(x)
    ensures JobsAfterPost(x, p, MAILBOX)
  {
    MailboxNotCleared(x, p, MAILBOX);
    forall n: nat | n < |x.gmo| && x.gmo[n].hart != 0 && Cleared(x, p, At(x, n).a) ensures AfterPost(x, MAILBOX, n) {
      var h, i := x.gmo[n].hart, x.gmo[n].i;
      assert IsMem(x.prog[h][i]);
      assert MovedTrace(p, h, x.prog[h]) == x.prog[h];
      if Writes(At(x, n)) { CalledStoreAfterPost(x, MAILBOX, n); } else { JobLoadAfterPost(x, n); }
    }
  }

  lemma RunFromCleared(x: Execution, p: Prologue)
    requires ClearedRun(x, p) && WorkingJobs(x)
    ensures LockRun(FromCleared(x, p)) && FromCleared(x, p).init(SHARED) == 0
    ensures Memory(x, |x.gmo|, SHARED) == Memory(FromCleared(x, p), |x.gmo|, SHARED)
  {
    WorkingJobsAfterPost(x, p);
    PostOrdersClearing(x, p, MAILBOX);
    FromClearedAllowed(x, p);
    SameMemory(x, p, |x.gmo|, SHARED);
  }

  /** With the fence w,w alone the lock excludes and no update is lost, whatever the fields held before: the run is a
      lock run from a free lock and a zero variable. */
  lemma NoLostUpdateAfterClearing(x: Execution, p: Prologue)
    requires ClearedRun(x, p) && WorkingJobs(x)
    ensures LockRun(FromCleared(x, p)) && FromCleared(x, p).init(SHARED) == 0
    ensures Memory(x, |x.gmo|, SHARED) == Total(FromCleared(x, p))
  {
    RunFromCleared(x, p);
    NoLostUpdate(FromCleared(x, p));
  }

  /** The whole test with the two fences it lacks (w,w before the post, r,rw behind the done flags), from any memory:
      hart 0's read of the total behind its loop returns the total. */
  lemma ClearedTestPasses(x: Execution, p: Prologue, j: nat)
    requires ClearedRun(x, p) && WorkingJobs(x) && j < |x.prog[0]|
    requires x.prog[0][j].Load? && x.prog[0][j].a == SHARED && !LoopAt(FromCleared(x, p).prog, 0, j)
    requires forall h: nat {:trigger Flag(h)} | 0 < h < |x.prog| ::
               Cleared(x, p, Flag(h)) && SawFlag(MovedTrace(p, 0, x.prog[0]), j, h)
    ensures x.prog[0][j].v == Total(FromCleared(x, p))
  {
    var y := FromCleared(x, p);
    RunFromCleared(x, p);
    SameEvents(x, p);
    var n := Position(x, Event(0, j));
    assert y.prog[0] == MovedTrace(p, 0, x.prog[0]);
    FencedReadIsTotal(y, n);
  }

  /** The test as it is but for an optional fence r,rw behind the job's start: no fence w,w before the post. */
  function LateFree(awaited: bool): Execution {
    Execution(
      (a: Loc) => 0,
      [[Store(LOCK, 0), Store(MAILBOX, 1), FENCE_W_W, Amo(LOCK, 0, 1), FENCE_R_RW, Load(SHARED, 0), Store(SHARED, 1)],
       [Load(MAILBOX, 1), Load(MAILBOX, 1), Optional(awaited, FENCE_R_RW),
        Amo(LOCK, 0, 1), FENCE_R_RW, Load(SHARED, 0), Store(SHARED, 1)]],
      [Event(0, 1), Event(1, 0), Event(1, 1), Event(1, 3), Event(1, 5),
       Event(0, 0), Event(0, 3), Event(0, 5), Event(0, 6), Event(1, 6)])
  }

  /** Where an event of that run stands in its global memory order. */
  function FreePlace(e: Event): nat {
    if e.hart == 0 then
      (if e.i == 0 then 5 else if e.i == 1 then 0 else if e.i == 3 then 6 else if e.i == 5 then 7 else 8)
    else
      (if e.i == 0 then 1 else if e.i == 1 then 2 else if e.i == 3 then 3 else if e.i == 5 then 4 else 9)
  }

  lemma FreeEvent(awaited: bool, n: nat)
    requires n < 10
    ensures IsEvent(LateFree(awaited), LateFree(awaited).gmo[n]) && FreePlace(LateFree(awaited).gmo[n]) == n
  {
  }

  lemma FreeComplete(awaited: bool, e: Event)
    requires IsEvent(LateFree(awaited), e)
    ensures FreePlace(e) < 10 && LateFree(awaited).gmo[FreePlace(e)] == e
  {
  }

  lemma FreeOrder(awaited: bool)
    ensures IsOrder(LateFree(awaited)) && |LateFree(awaited).gmo| == 10
  {
    var x := LateFree(awaited);
    forall n | 0 <= n < |x.gmo| ensures IsEvent(x, x.gmo[n]) && FreePlace(x.gmo[n]) == n { FreeEvent(awaited, n); }
    forall e | IsEvent(x, e) ensures e in x.gmo { FreeComplete(awaited, e); }
  }

  /** The one pair out of program order: the clearing of the lock and the post. */
  lemma FreeReorders(awaited: bool)
    ensures IsOrder(LateFree(awaited)) && ReordersUnordered(LateFree(awaited))
  {
    var x := LateFree(awaited);
    FreeOrder(awaited);
    assert Unordered(x.prog[0], 0, 1);
    forall m: nat, n: nat | n < m < |x.gmo| && x.gmo[m].hart == x.gmo[n].hart && x.gmo[m].i < x.gmo[n].i
      ensures Unordered(x.prog[x.gmo[m].hart], x.gmo[m].i, x.gmo[n].i)
    {
      assert n == 0 && m == 5;
    }
  }

  lemma FreeReads(awaited: bool, m: nat)
    requires IsOrder(LateFree(awaited)) && m < 10 && Reads(At(LateFree(awaited), m))
    ensures LoadValue(LateFree(awaited), m)
  {
    var x := LateFree(awaited);
    if m == 1 || m == 2 {
      assert ReturnsFrom(x, 0, m);
    } else if m == 6 {
      assert ReturnsFrom(x, 5, 6);
    } else {
      assert forall n: nat | n < |x.gmo| :: !Visible(x, n, m);
    }
  }

  lemma FreeGenuine(awaited: bool)
    ensures Genuine(LateFree(awaited)) && Controls(LateFree(awaited), 1, 1)
  {
    var x := LateFree(awaited);
    FreeReorders(awaited);
    forall m: nat | m < |x.gmo| && Reads(At(x, m)) ensures LoadValue(x, m) {
      FreeOrder(awaited);
      FreeReads(awaited, m);
    }
    GenuineControls(x, 1, 1);
  }

  lemma FreeIsWorker(awaited: bool)
    ensures PointAt(0, MovedTrace(Prologue(1, 3), 0, LateFree(awaited).prog[0]), 7) == Stored
    ensures PointAt(1, LateFree(awaited).prog[1], 7) == Stored
  {
    FreeCritical(0, MovedTrace(Prologue(1, 3), 0, LateFree(awaited).prog[0]));
    FreeCritical(1, LateFree(awaited).prog[1]);
  }

  /** Whatever precedes it, the last four operations lead into the critical section. */
  lemma FreeCritical(me: nat, t: Trace)
    requires |t| == 7 && t[3] == Amo(LOCK, 0, 1) && t[4] == FENCE_R_RW && t[5] == Load(SHARED, 0)
    requires t[6] == Store(SHARED, 1) && Idle(t[0]) && Idle(t[1]) && Idle(t[2])
    requires t[0] != FENCE_W_W && t[1] != FENCE_W_W
    ensures PointAt(me, t, 7) == Stored
  {
    assert PointAt(me, t, 1) == Trying;
    assert PointAt(me, t, 2) == Trying;
    assert Between(PointAt(me, t, 3));
    assert PointAt(me, t, 4) == Acquired;
    assert PointAt(me, t, 5) == Entered;
    assert PointAt(me, t, 6) == Loaded(0);
  }

  lemma FreeMemory(awaited: bool)
    ensures IsOrder(LateFree(awaited)) && Memory(LateFree(awaited), 10, SHARED) == 1
  {
    FreeOrder(awaited);
    MemoryIsLatest(LateFree(awaited), 10, SHARED, 9);
  }

  /** P4.3 as it stands does not exclude: core 0's clearing of the lock may perform after core 1 has taken it. Both
      harts end inside the critical section, neither having released the lock, and the second increment is lost. A
      fence r,rw in front of the job does not help. */
  lemma UnfencedClearBreaksLock(awaited: bool)
    ensures var x := LateFree(awaited);
      && Genuine(x) && Controls(x, 1, 1) && |x.gmo| == 10 && Memory(x, 10, SHARED) == 1
      && Critical(PointAt(0, MovedTrace(Prologue(1, 3), 0, x.prog[0]), 7)) && Critical(PointAt(1, x.prog[1], 7))
  {
    FreeGenuine(awaited);
    FreeOrder(awaited);
    FreeIsWorker(awaited);
    FreeMemory(awaited);
  }
}
